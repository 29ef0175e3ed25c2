/** The `Server` object: its registry and counters are fields that the handler
    methods update in place. Each method is proved to move the object from one
    state to the one the matching function of Registry or Dispatch describes. */
module ServerCore {
  import Framing
  import Protocol
  import Registry
  import Dispatch

  class Server {
    const descriptors: Dispatch.Descriptors

    var clients: map<int, Registry.ClientInfo>
    var totalClients: Registry.Size
    var currentClients: Registry.Size
    var running: bool
    var shutdown: bool
    /** The tasks handed to the worker pool, oldest first. */
    var pending: seq<Registry.Task>

    function Snapshot(): Registry.State
      reads this
    {
      Registry.State(clients, totalClients, currentClients, running, shutdown, pending)
    }

    ghost predicate Valid()
      reads this
    {
      Registry.Inv(Snapshot())
    }

    /** The object as a successful `start` leaves it. */
    constructor (descriptors: Dispatch.Descriptors)
      ensures this.descriptors == descriptors
      ensures Snapshot() == Registry.Started() && Valid()
    {
      this.descriptors := descriptors;
      clients := map[];
      totalClients, currentClients := 0, 0;
      running, shutdown := true, false;
      pending := [];
    }

    /** `handleTcpConnection`, given what `accept` and `epoll_ctl` returned. */
    method HandleTcpConnection(acceptedFd: int, peer: Registry.Address, registered: bool)
      modifies this
      ensures Snapshot() == Registry.Accept(old(Snapshot()), acceptedFd, peer, registered)
      ensures old(Valid()) && old(totalClients) < Registry.SIZE_LIMIT - 1 ==> Valid()
    {
      if acceptedFd == -1 {
        return;
      }
      if !registered {
        return;
      }
      clients := clients[acceptedFd := Registry.ClientInfo(acceptedFd, peer)];
      totalClients := Registry.Inc(totalClients);
      currentClients := Registry.Inc(currentClients);
      if old(Valid()) && old(totalClients) < Registry.SIZE_LIMIT - 1 {
        Registry.AcceptPreservesInv(old(Snapshot()), acceptedFd, peer, registered);
      }
    }

    /** `handleUdpMessage`, given what `recvfrom` returned. */
    method HandleUdpMessage(received: int, bytes: string, sender: Registry.Address)
      modifies this
      ensures Snapshot() == Registry.UdpRead(old(Snapshot()), received, bytes, sender)
      ensures old(Valid()) ==> Valid()
    {
      if received <= 0 {
        return;
      }
      var message := Framing.Inbound(received, bytes);
      pending := pending + [Registry.DatagramReply(sender, message)];
    }

    /** `handleTcpMessage`, given what `recv` returned on `fd`. */
    method HandleTcpMessage(fd: int, received: int, bytes: string)
      modifies this
      ensures Snapshot() == Registry.TcpRead(old(Snapshot()), fd, received, bytes)
      ensures old(Valid()) ==> Valid()
    {
      if received <= 0 {
        CloseClient(fd);
        return;
      }
      var message := Framing.Inbound(received, bytes);
      if fd !in clients {
        return;
      }
      var peer := clients[fd].peer;
      pending := pending + [Registry.StreamReply(fd, peer, message)];
    }

    /** `closeClient`. */
    method CloseClient(fd: int)
      modifies this
      ensures Snapshot() == Registry.CloseClient(old(Snapshot()), fd)
      ensures old(Valid()) ==> Valid()
    {
      if fd in clients {
        clients := clients - {fd};
        currentClients := Registry.Dec(currentClients);
        if old(Valid()) {
          Registry.CloseClientPreservesInv(old(Snapshot()), fd);
        }
      }
    }

    /** `stop`: clears running, closes every registered connection and empties
        the registry. Returns the descriptors whose connections it closed. */
    method Stop() returns (closed: set<int>)
      modifies this
      ensures closed == old(clients).Keys
      ensures Snapshot() == Registry.Stop(old(Snapshot()))
      ensures old(Valid()) ==> Valid()
    {
      running := false;
      var registered := clients.Keys;
      var toClose := registered;
      closed := {};
      while toClose != {}
        invariant toClose + closed == registered && toClose !! closed
        invariant Snapshot() == old(Snapshot()).(running := false)
        decreases toClose
      {
        Registry.SomeFd(toClose);
        var fd :| fd in toClose;
        closed := closed + {fd};
        toClose := toClose - {fd};
      }
      clients := map[];
    }

    /** `processMessage`: the reply to one trimmed message; `/shutdown` sets the
        shutdown flag and stops the server. `clock` is the formatted local time. */
    method ProcessMessage(message: string, clock: string) returns (response: string)
      modifies this
      ensures (Snapshot(), response) == Registry.Execute(old(Snapshot()), message, clock)
      ensures old(Valid()) ==> Valid()
    {
      var stats := Protocol.Stats(totalClients, currentClients);
      var reply := Protocol.Process(message, clock, stats);
      if reply.shutdownRequested {
        shutdown := true;
        var _ := Stop();
      }
      response := reply.text;
    }

    /** A worker running one task: `processTcpMessage` or `processUdpMessage`. */
    method RunTask(task: Registry.Task, clock: string) returns (out: Registry.Outgoing)
      modifies this
      ensures (Snapshot(), out) == Registry.RunTask(old(Snapshot()), task, clock)
      ensures old(Valid()) ==> Valid()
    {
      var response := ProcessMessage(task.message, clock);
      match task
      case StreamReply(fd, _, _) => out := Registry.Send(fd, response);
      case DatagramReply(peer, _) => out := Registry.SendTo(peer, response);
    }

    /** One step of the loop in `run`: route a ready descriptor by the if-chain
        and call its handler; a wake-up handles nothing. */
    method HandleEvent(e: Dispatch.Event) returns (action: Dispatch.Action)
      modifies this
      ensures action == Dispatch.Classify(descriptors, e.fd)
      ensures Snapshot() == Dispatch.Handle(old(Snapshot()), descriptors, e)
      ensures old(Valid()) && old(totalClients) < Registry.SIZE_LIMIT - 1 ==> Valid()
    {
      if Valid() && totalClients < Registry.SIZE_LIMIT - 1 {
        Dispatch.HandlePreservesInv(Snapshot(), descriptors, e);
      }
      if e.fd == descriptors.listener {
        HandleTcpConnection(e.io.acceptedFd, e.io.peer, e.io.registered);
        action := Dispatch.AcceptClient;
      } else if e.fd == descriptors.datagram {
        HandleUdpMessage(e.io.received, e.io.bytes, e.io.peer);
        action := Dispatch.ReadDatagram;
      } else if e.fd == descriptors.wake {
        action := Dispatch.WakeUp;
      } else {
        HandleTcpMessage(e.fd, e.io.received, e.io.bytes);
        action := Dispatch.ReadClient(e.fd);
      }
    }

    /** The loop in `run` over one batch of ready events. Returns the actions
        taken, in order; a wake-up returns at once. */
    method HandleBatch(events: seq<Dispatch.Event>) returns (actions: seq<Dispatch.Action>)
      modifies this
      ensures actions == Dispatch.Actions(descriptors, events)
      ensures Snapshot() == Dispatch.Batch(old(Snapshot()), descriptors, events)
      ensures old(Valid()) && old(totalClients) + |events| < Registry.SIZE_LIMIT ==> Valid()
    {
      ghost var start := Snapshot();
      if Registry.Inv(start) && start.total + |events| < Registry.SIZE_LIMIT {
        Dispatch.BatchPreservesInv(start, descriptors, events);
      }
      actions := [];
      var i := 0;
      while i < |events|
        invariant 0 <= i <= |events|
        invariant Dispatch.Batch(Snapshot(), descriptors, events[i..]) == Dispatch.Batch(start, descriptors, events)
        invariant actions + Dispatch.Actions(descriptors, events[i..]) == Dispatch.Actions(descriptors, events)
      {
        Dispatch.BatchStep(Snapshot(), descriptors, events, i);
        var action := HandleEvent(events[i]);
        actions := actions + [action];
        if action == Dispatch.WakeUp {
          return;
        }
        i := i + 1;
      }
    }

    /** `run`: while running, wait for events and handle each batch; an
        interrupted wait is retried, any other failure ends the loop, and so
        does a wake-up. `waits` are the successive outcomes of `epoll_wait`. */
    method Run(waits: seq<Dispatch.Wait>) returns (exit: Dispatch.Exit)
      modifies this
      ensures (Snapshot(), exit) == Dispatch.Run(old(Snapshot()), descriptors, waits)
      ensures (old(Valid()) && Dispatch.WaitsWellFormed(waits) &&
               old(totalClients) + Dispatch.MAX_EVENTS * |waits| < Registry.SIZE_LIMIT) ==> Valid()
    {
      if Valid() && Dispatch.WaitsWellFormed(waits)
        && totalClients + Dispatch.MAX_EVENTS * |waits| < Registry.SIZE_LIMIT {
        Dispatch.RunPreservesInv(Snapshot(), descriptors, waits);
      }
      var i := 0;
      while running
        invariant 0 <= i <= |waits|
        invariant Dispatch.Run(Snapshot(), descriptors, waits[i..]) == Dispatch.Run(old(Snapshot()), descriptors, waits)
        decreases |waits| - i
      {
        if i == |waits| {
          return Dispatch.Blocked;
        }
        var w := waits[i];
        assert waits[i..][0] == w && waits[i..][1..] == waits[i + 1..];
        match w
        case Interrupted =>
          i := i + 1;
        case WaitFailed =>
          return Dispatch.WaitError;
        case Ready(events) =>
          var actions := HandleBatch(events);
          Dispatch.WokenIffWakeAction(descriptors, events);
          if Dispatch.WakeUp in actions {
            return Dispatch.WokenUp;
          }
          i := i + 1;
      }
      exit := Dispatch.NotRunning;
    }

    /** The destructor: stops the server unless `/shutdown` already did. */
    method Finalize()
      modifies this
      ensures Snapshot() == if old(shutdown) then old(Snapshot()) else Registry.Stop(old(Snapshot()))
      ensures old(Valid()) ==> Valid()
    {
      if !shutdown {
        var _ := Stop();
      }
    }
  }
}
