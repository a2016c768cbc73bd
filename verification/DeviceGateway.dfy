/** The web socket gateway of relay/src/devices/ws-gateway.ts over the router, and whole runs
    of both: every callback of either is an event, and events come in any order.
 */
module DeviceGateway {
  import opened Wrappers
  import opened DeviceRegistry
  import opened DeviceRouter

  datatype LiveDevice = LiveDevice(socket: nat, connection: Connection)

  datatype Event =
    | Accept(account: string, device: string)
    | Message(socket: nat, route: nat, result: DeviceResult)
    | SocketClosed(socket: nat)
    | Kick(device: string)
    | Call(account: string, requested: Option<string>, requestId: string)
    | TimedOut(route: nat)
    | SendFailed(route: nat)
    | StartPairing(device: string, credentialHash: string, code: string, now: nat)
    | ApprovePairing(account: string, code: string, now: nat)
    | Revoke(account: string, device: string)

  /** The registry's contents. */
  datatype Bindings = Bindings(devices: map<string, DeviceRecord>, pendingByCode: map<string, PendingPairing>)

  /** What an event does to the registry: only pairing, approving and revoking change it. */
  function BindingsNext(b: Bindings, e: Event, ttl: nat): Bindings {
    match e
    case StartPairing(device, credentialHash, code, now) =>
      if device in b.devices && !b.devices[device].revoked then b
      else b.(pendingByCode := b.pendingByCode[code := PendingPairing(device, credentialHash, now + ttl)])
    case ApprovePairing(account, code, now) =>
      var left := b.pendingByCode - {code};
      if code in b.pendingByCode && now < b.pendingByCode[code].expiresAt then
        var p := b.pendingByCode[code];
        Bindings(b.devices[p.device := DeviceRecord(account, p.credentialHash, false)], left)
      else b.(pendingByCode := left)
    case Revoke(account, device) =>
      if device in b.devices && b.devices[device].account == account
      then b.(devices := b.devices[device := b.devices[device].(revoked := true)])
      else b
    case _ => b
  }

  function BindingsAfter(b: Bindings, events: seq<Event>, ttl: nat): Bindings {
    if events == [] then b
    else BindingsNext(BindingsAfter(b, events[..|events| - 1], ttl), events[|events| - 1], ttl)
  }

  /** The event is a call that may be routed so, given the bindings at that time. */
  predicate MayRoute(e: Event, bindings: Bindings, route: Route) {
    && e.Call? && route.requestId == e.requestId
    && BoundIn(bindings.devices, route.device, e.account)
    && (e.requested.Some? && e.requested.value != "" ==> route.device == e.requested.value)
  }

  /** The `i`-th event made the call, and the device was then bound to its caller, unrevoked. */
  predicate CalledAt(b: Bindings, ttl: nat, events: seq<Event>, i: nat, route: Route) {
    i < |events| && MayRoute(events[i], BindingsAfter(b, events[..i], ttl), route)
  }

  /** The socket is one of the connection the call was routed to. */
  predicate CameOver(handlers: map<nat, Connection>, socket: nat, route: Route) {
    socket in handlers && handlers[socket].device == route.device && handlers[socket].generation == route.generation
  }

  /** The event is one that takes the device's connection down. */
  predicate TakesDown(e: Event, handlers: map<nat, Connection>, device: string) {
    match e
    case Accept(_, d) => d == device
    case Kick(d) => d == device
    case SocketClosed(socket) => socket in handlers && handlers[socket].device == device
    case _ => false
  }

  /** The event may settle call `r` with this outcome. */
  predicate MaySettle(e: Event, handlers: map<nat, Connection>, r: nat, route: Route, outcome: Outcome) {
    match outcome
    case Delivered(result, _, _) =>
      && e.Message? && e.route == r && e.result == result && result.requestId == route.requestId
      && CameOver(handlers, e.socket, route)
    case Failed(code) =>
      match code
      case ProviderFailure =>
        && e.Message? && e.route == r && e.result.requestId != route.requestId
        && CameOver(handlers, e.socket, route)
      case TimedOut => e == Event.TimedOut(r)
      case Disconnected => e == SendFailed(r) || TakesDown(e, handlers, route.device)
      case _ => false
  }

  /** A call that is settled now and was not before. */
  predicate NewlySettled(before: map<nat, seq<Outcome>>, outcomes: map<nat, seq<Outcome>>, r: nat) {
    r in outcomes && outcomes[r] != [] && (r in before ==> before[r] == [])
  }

  /** Taking a device down settles its waiting calls, and may do so. */
  lemma TakingDownSettles(e: Event, handlers: map<nat, Connection>, device: string, routed: map<nat, Route>,
                          before: map<nat, seq<Outcome>>, pending: map<nat, Route>, next: nat)
    requires TakesDown(e, handlers, device) && AllCallsOk(routed, before, pending, next)
    ensures var outcomes := FailedOn(before, pending, device);
            forall r | r in routed && NewlySettled(before, outcomes, r) ::
              MaySettle(e, handlers, r, routed[r], outcomes[r][0])
  {
    forall r | r in routed && NewlySettled(before, FailedOn(before, pending, device), r)
      ensures MaySettle(e, handlers, r, routed[r], FailedOn(before, pending, device)[r][0])
    {
      assert CallOk(routed[r], before[r], Waiting(pending, r));
    }
  }

  /** Settling one call settles no other. */
  lemma OneSettles(e: Event, handlers: map<nat, Connection>, id: nat, routed: map<nat, Route>,
                   before: map<nat, seq<Outcome>>, outcome: Outcome)
    requires id in routed && MaySettle(e, handlers, id, routed[id], outcome)
    ensures var outcomes := before[id := [outcome]];
            forall r | r in routed && NewlySettled(before, outcomes, r) ::
              MaySettle(e, handlers, r, routed[r], outcomes[r][0])
  {}

  lemma PutBack<V>(m: map<string, V>, key: string, value: V)
    ensures (m - {key})[key := value] - {key} == m - {key}
  {}

  class DeviceWebSocketGateway {
    const router: DeviceRouter
    var live: map<string, LiveDevice>
    /** The connection captured by each accepted socket's handlers. */
    var handlers: map<nat, Connection>
    var nextSocket: nat

    /** The live map and the router's connections are the same devices with the same connections. */
    ghost predicate Agrees()
      reads this, router
    {
      && live.Keys == router.connections.Keys
      && (forall d | d in live ::
            && live[d].connection == router.connections[d]
            && live[d].socket in handlers
            && handlers[live[d].socket] == live[d].connection)
      && (forall s | s in handlers ::
            && s < nextSocket
            && handlers[s].generation < router.nextGeneration
            && (router.IsCurrent(handlers[s]) ==> IsLive(s)))
    }

    ghost predicate Valid()
      reads this, router
    {
      router.Valid() && Agrees()
    }

    /** The socket is the one its device is live on. */
    predicate IsLive(socket: nat)
      reads this
    {
      socket in handlers && handlers[socket].device in live && live[handlers[socket].device].socket == socket
    }

    constructor (router: DeviceRouter)
      requires router.Valid() && router.connections == map[]
      ensures Valid() && this.router == router && live == map[]
    {
      this.router := router;
      live, handlers, nextSocket := map[], map[], 0;
    }

    method DropLive(device: string)
      requires Valid()
      modifies this`live, router`connections, router`pending, router`outcomes
      ensures Valid() && live == old(live) - {device}
      ensures router.Extends(old(router.routed), old(router.outcomes))
      ensures router.pending == WithoutDevice(old(router.pending), device)
      ensures router.outcomes == FailedOn(old(router.outcomes), old(router.pending), device)
    {
      router.NothingOn(device);
      if device in live {
        var previous := live[device];
        live := live - {device};
        router.DisconnectHandle(previous.connection);
      }
    }

    /** The router has connection `c`, for which no socket is live yet. */
    ghost predicate Unclaimed(c: Connection)
      reads this, router
    {
      && c.device !in live && live.Keys + {c.device} == router.connections.Keys
      && router.connections[c.device] == c && c.generation < router.nextGeneration
      && (forall d | d in live ::
            && live[d].connection == router.connections[d]
            && live[d].socket in handlers
            && handlers[live[d].socket] == live[d].connection)
      && (forall s | s in handlers ::
            && s < nextSocket
            && handlers[s].generation < c.generation
            && (router.IsCurrent(handlers[s]) ==> IsLive(s)))
    }

    method Reconnect(account: string, device: string) returns (c: Option<Connection>)
      requires Valid() && device !in live
      modifies router`connections, router`pending, router`outcomes, router`nextGeneration
      ensures router.Valid() && router.Extends(old(router.routed), old(router.outcomes))
      ensures c.Some? <==> router.registry.Bound(device, account)
      ensures router.pending == old(router.pending) && router.outcomes == old(router.outcomes)
      ensures c.None? ==> Agrees()
      ensures c.Some? ==> c.value.account == account && c.value.device == device && Unclaimed(c.value)
    {
      router.NothingOn(device);
      c := router.ConnectDevice(account, device);
    }

    /** The device's old socket is dropped before the binding is checked again. */
    method TakeOver(account: string, device: string) returns (c: Option<Connection>)
      requires Valid()
      modifies this`live, router`connections, router`pending, router`outcomes, router`nextGeneration
      ensures router.Valid() && router.Extends(old(router.routed), old(router.outcomes))
      ensures live == old(live) - {device}
      ensures router.pending == WithoutDevice(old(router.pending), device)
      ensures router.outcomes == FailedOn(old(router.outcomes), old(router.pending), device)
      ensures c.Some? <==> router.registry.Bound(device, account)
      ensures c.None? ==> Agrees()
      ensures c.Some? ==> c.value.account == account && c.value.device == device && Unclaimed(c.value)
    {
      DropLive(device);
      c := Reconnect(account, device);
    }

    method Claim(c: Connection) returns (socket: nat)
      requires Unclaimed(c)
      modifies this
      ensures Agrees() && socket !in old(handlers) && handlers == old(handlers)[socket := c]
      ensures live == old(live)[c.device := LiveDevice(socket, c)]
    {
      socket := nextSocket;
      nextSocket := nextSocket + 1;
      live := live[c.device := LiveDevice(socket, c)];
      handlers := handlers[socket := c];
    }

    /** A new socket for an authenticated device; the binding is checked again on the way. */
    method AcceptSocket(account: string, device: string) returns (socket: Option<nat>)
      requires Valid()
      modifies this, router`connections, router`pending, router`outcomes, router`nextGeneration
      ensures Valid() && router.Extends(old(router.routed), old(router.outcomes))
      ensures router.pending == WithoutDevice(old(router.pending), device)
      ensures router.outcomes == FailedOn(old(router.outcomes), old(router.pending), device)
      ensures socket.Some? <==> router.registry.Bound(device, account)
      ensures socket.None? ==> live == old(live) - {device} && handlers == old(handlers)
      ensures socket.Some? ==>
        && socket.value !in old(handlers) && IsLive(socket.value)
        && device in live && handlers == old(handlers)[socket.value := live[device].connection]
        && live - {device} == old(live) - {device}
        && live[device].socket == socket.value && live[device].connection.account == account
    {
      var connection := TakeOver(account, device);
      if connection.None? {
        return None;
      }
      var id := Claim(connection.value);
      PutBack(old(live), device, live[device]);
      return Some(id);
    }

    /** A result message on a socket; nothing happens unless the socket is the live one. */
    method OnMessage(socket: nat, route: nat, result: DeviceResult)
      requires Valid() && socket in handlers
      modifies router`pending, router`outcomes
      ensures Valid() && router.Extends(old(router.routed), old(router.outcomes))
      ensures var c := handlers[socket];
              if IsLive(socket) && route in old(router.pending) && router.Matches(old(router.pending)[route], c) then
                && router.pending == old(router.pending) - {route}
                && router.outcomes == old(router.outcomes)[route :=
                     [if result.requestId == old(router.pending)[route].requestId
                      then Delivered(result, c.device, c.generation) else Failed(ProviderFailure)]]
              else router.pending == old(router.pending) && router.outcomes == old(router.outcomes)
    {
      router.Receive(handlers[socket], route, result);
    }

    /** A socket closing or failing takes its device offline only while it is the live one. */
    method OnClose(socket: nat)
      requires Valid() && socket in handlers
      modifies this`live, router`connections, router`pending, router`outcomes
      ensures Valid() && router.Extends(old(router.routed), old(router.outcomes))
      ensures !old(IsLive(socket)) ==>
        && live == old(live) && router.connections == old(router.connections)
        && router.pending == old(router.pending) && router.outcomes == old(router.outcomes)
      ensures old(IsLive(socket)) ==>
        && live == old(live) - {handlers[socket].device}
        && router.pending == WithoutDevice(old(router.pending), handlers[socket].device)
        && router.outcomes == FailedOn(old(router.outcomes), old(router.pending), handlers[socket].device)
    {
      var device := handlers[socket].device;
      if device !in live || live[device].socket != socket {
        return;
      }
      live := live - {device};
      router.DisconnectHandle(handlers[socket]);
    }

    method DisconnectDevice(device: string)
      requires Valid()
      modifies this`live, router`connections, router`pending, router`outcomes
      ensures Valid() && live == old(live) - {device}
      ensures router.Extends(old(router.routed), old(router.outcomes))
      ensures router.pending == WithoutDevice(old(router.pending), device)
      ensures router.outcomes == FailedOn(old(router.outcomes), old(router.pending), device)
    {
      if device !in live {
        router.DisconnectDevice(device);
        return;
      }
      var connection := live[device].connection;
      live := live - {device};
      router.DisconnectHandle(connection);
    }

    ghost function RegistryBindings(): Bindings
      reads router.registry
    {
      Bindings(router.registry.devices, router.registry.pendingByCode)
    }

    /** Calls routed by now that were not before. */
    ghost predicate RoutedMayBe(before: map<nat, Route>, e: Event, bindings: Bindings)
      reads router
    {
      forall r | r in router.routed && r !in before :: MayRoute(e, bindings, router.routed[r])
    }

    /** Whatever is settled now and was not before, this event may have settled. */
    ghost predicate SettledBy(before: map<nat, seq<Outcome>>, e: Event)
      reads this`handlers, router
    {
      forall r | r in router.routed && NewlySettled(before, router.outcomes, r) ::
        MaySettle(e, handlers, r, router.routed[r], router.outcomes[r][0])
    }

    /** Handlers stay with their sockets. */
    ghost predicate KeepsHandlers(before: map<nat, Connection>)
      reads this`handlers
    {
      forall s | s in before :: s in handlers && handlers[s] == before[s]
    }

    method HandleAccept(e: Event)
      requires Valid() && e.Accept?
      modifies this, router
      ensures SettledBy(old(router.outcomes), e) && KeepsHandlers(old(handlers))
      ensures router.routed == old(router.routed)
      ensures Valid() && router.Extends(old(router.routed), old(router.outcomes))
    {
      ghost var outcomes, pending, next := router.outcomes, router.pending, router.nextRoute;
      var _ := AcceptSocket(e.account, e.device);
      TakingDownSettles(e, handlers, e.device, router.routed, outcomes, pending, next);
    }

    method HandleClose(e: Event)
      requires Valid() && e.SocketClosed?
      modifies this, router
      ensures SettledBy(old(router.outcomes), e) && KeepsHandlers(old(handlers))
      ensures router.routed == old(router.routed)
      ensures Valid() && router.Extends(old(router.routed), old(router.outcomes))
    {
      if e.socket in handlers {
        TakingDownSettles(e, handlers, handlers[e.socket].device, router.routed, router.outcomes, router.pending,
                          router.nextRoute);
        OnClose(e.socket);
      }
    }

    method HandleKick(e: Event)
      requires Valid() && e.Kick?
      modifies this, router
      ensures SettledBy(old(router.outcomes), e) && KeepsHandlers(old(handlers))
      ensures router.routed == old(router.routed)
      ensures Valid() && router.Extends(old(router.routed), old(router.outcomes))
    {
      ghost var outcomes, pending, next := router.outcomes, router.pending, router.nextRoute;
      DisconnectDevice(e.device);
      TakingDownSettles(e, handlers, e.device, router.routed, outcomes, pending, next);
    }

    method HandleMessage(e: Event)
      requires Valid() && e.Message?
      modifies this, router
      ensures SettledBy(old(router.outcomes), e) && KeepsHandlers(old(handlers))
      ensures router.routed == old(router.routed)
      ensures Valid() && router.Extends(old(router.routed), old(router.outcomes))
    {
      if e.socket in handlers {
        var c := handlers[e.socket];
        if e.route in router.pending && router.Matches(router.pending[e.route], c) {
          assert CallOk(router.routed[e.route], router.outcomes[e.route], Waiting(router.pending, e.route));
          ghost var outcome := if e.result.requestId == router.pending[e.route].requestId
                               then Delivered(e.result, c.device, c.generation) else Failed(ProviderFailure);
          OneSettles(e, handlers, e.route, router.routed, router.outcomes, outcome);
        }
        OnMessage(e.socket, e.route, e.result);
      }
    }

    method HandleCall(e: Event)
      requires Valid() && e.Call?
      modifies router
      ensures SettledBy(old(router.outcomes), e) && RoutedMayBe(old(router.routed), e, RegistryBindings())
      ensures Valid() && router.Extends(old(router.routed), old(router.outcomes))
    {
      var _ := router.Call(e.account, e.requested, e.requestId);
    }

    method HandleTimeout(e: Event)
      requires Valid() && e.TimedOut?
      modifies router`pending, router`outcomes
      ensures SettledBy(old(router.outcomes), e)
      ensures Valid() && router.Extends(old(router.routed), old(router.outcomes))
    {
      if e.route in router.pending {
        OneSettles(e, handlers, e.route, router.routed, router.outcomes, Failed(ErrorCode.TimedOut));
      }
      router.TimeOut(e.route);
    }

    method HandleSendFailure(e: Event)
      requires Valid() && e.SendFailed?
      modifies router`pending, router`outcomes
      ensures SettledBy(old(router.outcomes), e)
      ensures Valid() && router.Extends(old(router.routed), old(router.outcomes))
    {
      if e.route in router.pending {
        OneSettles(e, handlers, e.route, router.routed, router.outcomes, Failed(Disconnected));
      }
      router.SendFailed(e.route);
    }

    method HandlePairing(e: Event)
      requires e.StartPairing? || e.ApprovePairing? || e.Revoke?
      modifies router.registry
      ensures RegistryBindings() == BindingsNext(old(RegistryBindings()), e, router.registry.pairingTtlMs)
    {
      match e {
        case StartPairing(device, hash, code, now) => var _ := router.registry.StartPairing(device, hash, code, now);
        case ApprovePairing(account, code, now) => var _ := router.registry.ApprovePairing(account, code, now);
        case Revoke(account, device) => var _ := router.registry.RevokeDevice(account, device);
      }
    }

    method Handle(e: Event)
      requires Valid()
      modifies this, router, router.registry
      ensures RegistryBindings() == BindingsNext(old(RegistryBindings()), e, router.registry.pairingTtlMs)
      ensures RoutedMayBe(old(router.routed), e, old(RegistryBindings()))
      ensures Valid() && router.Extends(old(router.routed), old(router.outcomes))
      ensures SettledBy(old(router.outcomes), e) && KeepsHandlers(old(handlers))
    {
      match e {
        case Accept(_, _) => HandleAccept(e);
        case Message(_, _, _) => HandleMessage(e);
        case SocketClosed(_) => HandleClose(e);
        case Kick(_) => HandleKick(e);
        case Call(_, _, _) => HandleCall(e);
        case TimedOut(_) => HandleTimeout(e);
        case SendFailed(_) => HandleSendFailure(e);
        case _ => HandlePairing(e);
      }
    }

    /** What validity says of the calls routed and of the two maps. */
    lemma CallsAreSettledOnce()
      requires Valid()
      ensures live.Keys == router.connections.Keys
      ensures forall d | d in live :: live[d].connection == router.connections[d]
      ensures forall r | r in router.routed ::
        if r in router.pending then
          && router.outcomes[r] == []
          && router.routed[r].device in router.connections
          && router.connections[router.routed[r].device].generation == router.routed[r].generation
        else |router.outcomes[r]| == 1
      ensures forall r | r in router.routed && r !in router.pending && router.outcomes[r][0].Delivered? ::
        && router.outcomes[r][0].result.requestId == router.routed[r].requestId
        && router.outcomes[r][0].generation == router.routed[r].generation
    {
      assert forall r | r in router.routed ::
          CallOk(router.routed[r], router.outcomes[r], Waiting(router.pending, r));
      assert forall r | r in router.pending :: router.OnCurrentConnection(router.pending[r]);
    }
  }

  /** What holds after the first `n` events: `bindings`, `routed` and `settled` are those at the start. */
  ghost predicate Served(gateway: DeviceWebSocketGateway, bindings: Bindings, routed: map<nat, Route>,
                         settled: map<nat, seq<Outcome>>, events: seq<Event>, n: nat)
    requires n <= |events|
    reads gateway, gateway.router, gateway.router.registry
  {
    var ttl := gateway.router.registry.pairingTtlMs;
    && gateway.Valid() && gateway.router.Extends(routed, settled)
    && gateway.RegistryBindings() == BindingsAfter(bindings, events[..n], ttl)
    && AllCalled(bindings, ttl, events, routed, gateway.router.routed)
    && AllSettled(events, gateway.handlers, settled, gateway.router.routed, gateway.router.outcomes)
  }

  method HandleNext(gateway: DeviceWebSocketGateway, events: seq<Event>, i: nat, ghost bindings: Bindings,
                    ghost routed: map<nat, Route>, ghost settled: map<nat, seq<Outcome>>)
    requires i < |events| && Served(gateway, bindings, routed, settled, events, i)
    modifies gateway, gateway.router, gateway.router.registry
    ensures Served(gateway, bindings, routed, settled, events, i + 1)
  {
    ghost var before, handlers, outcomes := gateway.router.routed, gateway.handlers, gateway.router.outcomes;
    gateway.Handle(events[i]);
    StillSettled(events, i, settled, before, handlers, outcomes, gateway.router.routed, gateway.handlers,
                 gateway.router.outcomes);
    assert events[..i + 1][..i] == events[..i];
    StillCalled(bindings, gateway.router.registry.pairingTtlMs, events, i, routed, before, gateway.router.routed);
  }

  method HandleAll(gateway: DeviceWebSocketGateway, events: seq<Event>)
    requires gateway.Valid()
    modifies gateway, gateway.router, gateway.router.registry
    ensures Served(gateway, old(gateway.RegistryBindings()), old(gateway.router.routed), old(gateway.router.outcomes),
                   events, |events|)
  {
    ghost var bindings, routed, settled :=
      gateway.RegistryBindings(), gateway.router.routed, gateway.router.outcomes;
    for i := 0 to |events|
      invariant Served(gateway, bindings, routed, settled, events, i)
    {
      HandleNext(gateway, events, i, bindings, routed, settled);
    }
  }

  /** Whatever happens in whatever order, at the end the two maps agree, every call ever routed
      is either pending on its device's current connection or settled exactly once, no settled
      call has been settled anew, every delivered result came from the connection the call was
      routed to, under its own request id, and every call routed on the way was made by an event
      at which the registry bound the device to the caller's account, unrevoked. */
  method Serve(gateway: DeviceWebSocketGateway, events: seq<Event>)
    requires gateway.Valid()
    modifies gateway, gateway.router, gateway.router.registry
    ensures gateway.Valid() && gateway.router.Extends(old(gateway.router.routed), old(gateway.router.outcomes))
    ensures gateway.RegistryBindings()
         == BindingsAfter(old(gateway.RegistryBindings()), events, gateway.router.registry.pairingTtlMs)
    ensures AllCalled(old(gateway.RegistryBindings()), gateway.router.registry.pairingTtlMs, events,
                      old(gateway.router.routed), gateway.router.routed)
    ensures AllSettled(events, gateway.handlers, old(gateway.router.outcomes), gateway.router.routed,
                       gateway.router.outcomes)
    ensures var router := gateway.router;
            && gateway.live.Keys == router.connections.Keys
            && (forall d | d in gateway.live :: gateway.live[d].connection == router.connections[d])
            && (forall r | r in router.routed ::
                  if r in router.pending then
                    && router.outcomes[r] == []
                    && router.routed[r].device in router.connections
                    && router.connections[router.routed[r].device].generation == router.routed[r].generation
                  else |router.outcomes[r]| == 1)
            && (forall r | r in router.routed && r !in router.pending && router.outcomes[r][0].Delivered? ::
                  && router.outcomes[r][0].result.requestId == router.routed[r].requestId
                  && router.outcomes[r][0].generation == router.routed[r].generation)
  {
    HandleAll(gateway, events);
    assert events[..|events|] == events;
    gateway.CallsAreSettledOnce();
  }

  ghost predicate WasCalled(b: Bindings, ttl: nat, events: seq<Event>, route: Route) {
    exists i: nat :: CalledAt(b, ttl, events, i, route)
  }

  ghost predicate AllCalled(b: Bindings, ttl: nat, events: seq<Event>, before: map<nat, Route>,
                            routed: map<nat, Route>)
  {
    forall r | r in routed && r !in before :: WasCalled(b, ttl, events, routed[r])
  }

  lemma StillCalled(b: Bindings, ttl: nat, events: seq<Event>, i: nat, first: map<nat, Route>, before: map<nat, Route>,
                    routed: map<nat, Route>)
    requires i < |events| && AllCalled(b, ttl, events, first, before)
    requires forall r | r in before :: r in routed && routed[r] == before[r]
    requires forall r | r in routed && r !in before ::
      MayRoute(events[i], BindingsAfter(b, events[..i], ttl), routed[r])
    ensures AllCalled(b, ttl, events, first, routed)
  {
    forall r | r in routed && r !in first ensures WasCalled(b, ttl, events, routed[r]) {
      if r in before {
        assert WasCalled(b, ttl, events, before[r]);
      } else {
        assert CalledAt(b, ttl, events, i, routed[r]);
      }
    }
  }

  ghost predicate WasSettled(events: seq<Event>, handlers: map<nat, Connection>, r: nat, route: Route,
                             outcome: Outcome)
  {
    exists e :: e in events && MaySettle(e, handlers, r, route, outcome)
  }

  /** Every call settled by now and not before was settled by one of the events. */
  ghost predicate AllSettled(events: seq<Event>, handlers: map<nat, Connection>, before: map<nat, seq<Outcome>>,
                             routed: map<nat, Route>, outcomes: map<nat, seq<Outcome>>)
  {
    forall r | r in routed && NewlySettled(before, outcomes, r) ::
      WasSettled(events, handlers, r, routed[r], outcomes[r][0])
  }

  lemma StillSettled(events: seq<Event>, i: nat, first: map<nat, seq<Outcome>>,
                     routed: map<nat, Route>, handlers: map<nat, Connection>, outcomes: map<nat, seq<Outcome>>,
                     routedNow: map<nat, Route>, handlersNow: map<nat, Connection>, now: map<nat, seq<Outcome>>)
    requires i < |events| && AllSettled(events, handlers, first, routed, outcomes)
    requires outcomes.Keys == routed.Keys
    requires forall r | r in routed :: r in routedNow && routedNow[r] == routed[r]
    requires forall r | r in outcomes && outcomes[r] != [] :: r in now && now[r] == outcomes[r]
    requires forall s | s in handlers :: s in handlersNow && handlersNow[s] == handlers[s]
    requires forall r | r in routedNow && NewlySettled(outcomes, now, r) ::
      MaySettle(events[i], handlersNow, r, routedNow[r], now[r][0])
    ensures AllSettled(events, handlersNow, first, routedNow, now)
  {
    forall r | r in routedNow && NewlySettled(first, now, r)
      ensures WasSettled(events, handlersNow, r, routedNow[r], now[r][0])
    {
      if NewlySettled(outcomes, now, r) {
        assert events[i] in events;
      } else {
        assert WasSettled(events, handlers, r, routed[r], outcomes[r][0]);
        var e :| e in events && MaySettle(e, handlers, r, routed[r], outcomes[r][0]);
        assert MaySettle(e, handlersNow, r, routedNow[r], now[r][0]);
      }
    }
  }
}
