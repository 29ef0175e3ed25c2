/** The event loop of `run`: each ready descriptor of a batch is routed, in a
    fixed priority order, to the listener, datagram, wake-up or client handler;
    a wake-up ends the loop at once, leaving the rest of the batch unhandled. */
module Dispatch {
  import Framing
  import Registry

  /** At most this many events come back from one wait. */
  const MAX_EVENTS: nat := 64

  /** The server's own descriptors, fixed by a successful start. */
  datatype Descriptors = Descriptors(listener: int, datagram: int, wake: int)

  datatype Action = AcceptClient | ReadDatagram | WakeUp | ReadClient(fd: int)

  /** What the system calls made for one event return: `accept` (descriptor and
      peer) followed by `epoll_ctl` (registered or not), or `recv`/`recvfrom`
      (count, bytes and, for a datagram, the sender in `peer`). Each handler
      reads only its own part. */
  datatype Io = Io(acceptedFd: int, peer: Registry.Address, registered: bool, received: int, bytes: string)

  /** One ready event: the descriptor the multiplexer reported, and the results
      of the calls its handler makes. */
  datatype Event = Event(fd: int, io: Io)

  /** The if-chain in the loop body: listener first, then the datagram socket,
      then the wake-up descriptor; anything else is a client connection. */
  function Classify(d: Descriptors, fd: int): (r: Action)
    ensures r == WakeUp ==> fd == d.wake
    ensures r.ReadClient? ==> r.fd == fd
  {
    if fd == d.listener then AcceptClient
    else if fd == d.datagram then ReadDatagram
    else if fd == d.wake then WakeUp
    else ReadClient(fd)
  }

  /** The actions the loop takes for a batch, in order, up to and including the
      first wake-up. */
  function Actions(d: Descriptors, events: seq<Event>): (r: seq<Action>)
    ensures |r| <= |events|
    decreases |events|
  {
    if events == [] then []
    else if Classify(d, events[0].fd) == WakeUp then [WakeUp]
    else [Classify(d, events[0].fd)] + Actions(d, events[1..])
  }

  /** One turn of the loop: from event i on, a batch is that event's handler
      followed by the rest, unless the event is the wake-up, which ends it. */
  lemma BatchStep(s: Registry.State, d: Descriptors, events: seq<Event>, i: nat)
    requires i < |events|
    ensures Classify(d, events[i].fd) == WakeUp ==>
      Batch(s, d, events[i..]) == s && Actions(d, events[i..]) == [WakeUp]
    ensures Classify(d, events[i].fd) != WakeUp ==>
      && Batch(s, d, events[i..]) == Batch(Handle(s, d, events[i]), d, events[i + 1..])
      && Actions(d, events[i..]) == [Classify(d, events[i].fd)] + Actions(d, events[i + 1..])
  {
    assert events[i..][0] == events[i] && events[i..][1..] == events[i + 1..];
  }

  predicate Woken(d: Descriptors, events: seq<Event>) {
    exists i :: 0 <= i < |events| && Classify(d, events[i].fd) == WakeUp
  }

  /** The state change of one handler call. */
  function Handle(s: Registry.State, d: Descriptors, e: Event): (r: Registry.State)
    ensures r.running == s.running && r.shutdown == s.shutdown
    ensures s.pending <= r.pending
  {
    match Classify(d, e.fd)
    case AcceptClient => Registry.Accept(s, e.io.acceptedFd, e.io.peer, e.io.registered)
    case ReadDatagram => Registry.UdpRead(s, e.io.received, e.io.bytes, e.io.peer)
    case WakeUp => s
    case ReadClient(fd) => Registry.TcpRead(s, fd, e.io.received, e.io.bytes)
  }

  /** The state after the loop has handled a batch. */
  function Batch(s: Registry.State, d: Descriptors, events: seq<Event>): (r: Registry.State)
    ensures r.running == s.running && r.shutdown == s.shutdown
    decreases |events|
  {
    if events == [] || Classify(d, events[0].fd) == WakeUp then s
    else Batch(Handle(s, d, events[0]), d, events[1..])
  }

  /** One outcome of `epoll_wait`: interrupted by a signal, failed another way,
      or a batch of ready events. */
  datatype Wait = Interrupted | WaitFailed | Ready(events: seq<Event>)

  /** Why `run` returned; `Blocked` means the given wait outcomes ran out while
      the loop was still waiting. */
  datatype Exit = NotRunning | WaitError | WokenUp | Blocked

  predicate WaitsWellFormed(waits: seq<Wait>) {
    forall i :: 0 <= i < |waits| && waits[i].Ready? ==> |waits[i].events| <= MAX_EVENTS
  }

  /** The whole of `run`, over a sequence of wait outcomes. */
  function Run(s: Registry.State, d: Descriptors, waits: seq<Wait>): (r: (Registry.State, Exit))
    ensures r.0.shutdown == s.shutdown
    ensures r.1 == NotRunning ==> !r.0.running
    decreases |waits|
  {
    if !s.running then (s, NotRunning)
    else if waits == [] then (s, Blocked)
    else match waits[0]
      case Interrupted => Run(s, d, waits[1..])
      case WaitFailed => (s, WaitError)
      case Ready(events) =>
        if Woken(d, events) then (Batch(s, d, events), WokenUp)
        else Run(Batch(s, d, events), d, waits[1..])
  }

  // ---------------------------------------------------------------------------

  /** The priority order of the routing, for descriptors that may coincide. */
  lemma ClassifyPriority(d: Descriptors, fd: int)
    ensures Classify(d, fd) == AcceptClient <==> fd == d.listener
    ensures Classify(d, fd) == ReadDatagram <==> fd != d.listener && fd == d.datagram
    ensures Classify(d, fd) == WakeUp <==> fd != d.listener && fd != d.datagram && fd == d.wake
    ensures Classify(d, fd).ReadClient? <==> fd != d.listener && fd != d.datagram && fd != d.wake
    ensures Classify(d, fd).ReadClient? ==> Classify(d, fd).fd == fd
  {
  }

  /** Events are handled in their order, each by its classification, and a
      wake-up can only be the last action. */
  lemma {:induction false} ActionsFollowEvents(d: Descriptors, events: seq<Event>)
    ensures |Actions(d, events)| <= |events|
    ensures forall i :: 0 <= i < |Actions(d, events)| ==> Actions(d, events)[i] == Classify(d, events[i].fd)
    ensures forall i :: 0 <= i < |Actions(d, events)| - 1 ==> Actions(d, events)[i] != WakeUp
    decreases |events|
  {
    if events != [] && Classify(d, events[0].fd) != WakeUp {
      ActionsFollowEvents(d, events[1..]);
      var a := Actions(d, events);
      assert a == [Classify(d, events[0].fd)] + Actions(d, events[1..]);
      forall i | 0 < i < |a| ensures a[i] == Classify(d, events[i].fd) {
        assert a[i] == Actions(d, events[1..])[i - 1];
        assert events[1..][i - 1] == events[i];
      }
    }
  }

  /** With the first wake-up at position k, exactly k + 1 actions are taken and
      the last is the wake-up. */
  lemma {:induction false} ActionsStopAtFirstWake(d: Descriptors, events: seq<Event>, k: nat)
    requires k < |events| && Classify(d, events[k].fd) == WakeUp
    requires forall j :: 0 <= j < k ==> Classify(d, events[j].fd) != WakeUp
    ensures |Actions(d, events)| == k + 1 && Actions(d, events)[k] == WakeUp
    decreases k
  {
    if k > 0 {
      var rest := events[1..];
      forall j | 0 <= j < k - 1 ensures Classify(d, rest[j].fd) != WakeUp {
        assert rest[j] == events[j + 1];
      }
      ActionsStopAtFirstWake(d, rest, k - 1);
    }
  }

  /** Without a wake-up every event of the batch is handled. */
  lemma {:induction false} ActionsWithoutWake(d: Descriptors, events: seq<Event>)
    requires !Woken(d, events)
    ensures |Actions(d, events)| == |events|
    decreases |events|
  {
    if events != [] {
      assert Classify(d, events[0].fd) != WakeUp;
      assert !Woken(d, events[1..]) by {
        forall i | 0 <= i < |events[1..]| ensures Classify(d, events[1..][i].fd) != WakeUp {
          assert events[1..][i] == events[i + 1];
        }
      }
      ActionsWithoutWake(d, events[1..]);
    }
  }

  /** The loop takes a wake-up action exactly when the batch holds the wake-up
      descriptor. */
  lemma {:induction false} WokenIffWakeAction(d: Descriptors, events: seq<Event>)
    ensures Woken(d, events) <==> WakeUp in Actions(d, events)
    decreases |events|
  {
    if events != [] && Classify(d, events[0].fd) != WakeUp {
      WokenIffWakeAction(d, events[1..]);
      if Woken(d, events) {
        var i :| 0 <= i < |events| && Classify(d, events[i].fd) == WakeUp;
        assert events[1..][i - 1] == events[i];
      }
      if Woken(d, events[1..]) {
        var i :| 0 <= i < |events[1..]| && Classify(d, events[1..][i].fd) == WakeUp;
        assert events[1..][i] == events[i + 1];
      }
    }
  }

  /** Events after the first wake-up have no effect on the state. */
  lemma {:induction false} BatchIgnoresAfterWake(s: Registry.State, d: Descriptors, events: seq<Event>, k: nat)
    requires k < |events| && Classify(d, events[k].fd) == WakeUp
    requires forall j :: 0 <= j < k ==> Classify(d, events[j].fd) != WakeUp
    ensures Batch(s, d, events) == Batch(s, d, events[..k])
    decreases k
  {
    if k > 0 {
      var rest := events[1..];
      forall j | 0 <= j < k - 1 ensures Classify(d, rest[j].fd) != WakeUp {
        assert rest[j] == events[j + 1];
      }
      BatchIgnoresAfterWake(Handle(s, d, events[0]), d, rest, k - 1);
      assert events[..k][0] == events[0];
      assert events[..k][1..] == rest[..k - 1];
    }
  }

  lemma HandlePreservesInv(s: Registry.State, d: Descriptors, e: Event)
    requires Registry.Inv(s) && s.total < Registry.SIZE_LIMIT - 1
    ensures Registry.Inv(Handle(s, d, e))
    ensures Handle(s, d, e).total <= s.total + 1
  {
    match Classify(d, e.fd)
    case AcceptClient => Registry.AcceptPreservesInv(s, e.io.acceptedFd, e.io.peer, e.io.registered);
    case ReadDatagram => Registry.UdpReadPreservesInv(s, e.io.received, e.io.bytes, e.io.peer);
    case WakeUp =>
    case ReadClient(fd) => Registry.TcpReadPreservesInv(s, fd, e.io.received, e.io.bytes);
  }

  /** Handling a batch keeps registry size <= current <= total, as long as the
      total count cannot wrap. */
  lemma {:induction false} BatchPreservesInv(s: Registry.State, d: Descriptors, events: seq<Event>)
    requires Registry.Inv(s) && s.total + |events| < Registry.SIZE_LIMIT
    ensures Registry.Inv(Batch(s, d, events))
    ensures Batch(s, d, events).total <= s.total + |events|
    decreases |events|
  {
    if events != [] && Classify(d, events[0].fd) != WakeUp {
      HandlePreservesInv(s, d, events[0]);
      BatchPreservesInv(Handle(s, d, events[0]), d, events[1..]);
    }
  }

  /** Every message a batch queues, from a client or a datagram, holds at
      most MAX_READ characters and no NUL. */
  lemma {:induction false} BatchMessagesBounded(s: Registry.State, d: Descriptors, events: seq<Event>)
    requires Registry.MessagesBounded(s.pending)
    ensures Registry.MessagesBounded(Batch(s, d, events).pending)
    decreases |events|
  {
    if events != [] && Classify(d, events[0].fd) != WakeUp {
      var e := events[0];
      var h := Handle(s, d, e);
      match Classify(d, e.fd) {
        case AcceptClient =>
        case ReadDatagram => Registry.UdpReadMessageBound(s, e.io.received, e.io.bytes, e.io.peer);
        case WakeUp =>
        case ReadClient(fd) => Registry.TcpReadMessageBound(s, fd, e.io.received, e.io.bytes);
      }
      assert Registry.MessagesBounded(h.pending) by {
        forall i | 0 <= i < |h.pending|
          ensures |h.pending[i].message| <= Framing.MAX_READ && Framing.NUL !in h.pending[i].message
        {
          if i >= |s.pending| { assert h.pending[i] == h.pending[|s.pending|..][i - |s.pending|]; }
        }
      }
      BatchMessagesBounded(h, d, events[1..]);
    }
  }

  /** The handlers never touch the running or shutdown flags and only ever
      append tasks. */
  lemma {:induction false} BatchKeepsFlags(s: Registry.State, d: Descriptors, events: seq<Event>)
    ensures Batch(s, d, events).running == s.running
    ensures Batch(s, d, events).shutdown == s.shutdown
    ensures s.pending <= Batch(s, d, events).pending
    decreases |events|
  {
    if events != [] && Classify(d, events[0].fd) != WakeUp {
      BatchKeepsFlags(Handle(s, d, events[0]), d, events[1..]);
    }
  }

  /** `run` returns because of the running flag exactly when the flag was
      already clear on entry: nothing the loop itself handles clears it. */
  lemma {:induction false} RunNotRunningIff(s: Registry.State, d: Descriptors, waits: seq<Wait>)
    ensures Run(s, d, waits).1 == NotRunning <==> !s.running
    ensures Run(s, d, waits).0.running == s.running
    decreases |waits|
  {
    if s.running && waits != [] {
      match waits[0]
      case Interrupted => RunNotRunningIff(s, d, waits[1..]);
      case WaitFailed =>
      case Ready(events) =>
        BatchKeepsFlags(s, d, events);
        if !Woken(d, events) {
          RunNotRunningIff(Batch(s, d, events), d, waits[1..]);
        }
    }
  }

  /** The whole loop keeps registry size <= current <= total, as long as the
      total count cannot wrap within the given waits. */
  lemma {:induction false} RunPreservesInv(s: Registry.State, d: Descriptors, waits: seq<Wait>)
    requires Registry.Inv(s) && WaitsWellFormed(waits)
    requires s.total + MAX_EVENTS * |waits| < Registry.SIZE_LIMIT
    ensures Registry.Inv(Run(s, d, waits).0)
    decreases |waits|
  {
    if s.running && waits != [] {
      assert WaitsWellFormed(waits[1..]) by {
        forall i | 0 <= i < |waits[1..]| && waits[1..][i].Ready?
          ensures |waits[1..][i].events| <= MAX_EVENTS
        {
          assert waits[1..][i] == waits[i + 1];
        }
      }
      match waits[0]
      case Interrupted => RunPreservesInv(s, d, waits[1..]);
      case WaitFailed =>
      case Ready(events) =>
        assert |events| <= MAX_EVENTS;
        BatchPreservesInv(s, d, events);
        if !Woken(d, events) {
          RunPreservesInv(Batch(s, d, events), d, waits[1..]);
        }
    }
  }

  /** Every message the whole loop queues holds at most MAX_READ characters
      and no NUL. */
  lemma {:induction false} RunMessagesBounded(s: Registry.State, d: Descriptors, waits: seq<Wait>)
    requires Registry.MessagesBounded(s.pending)
    ensures Registry.MessagesBounded(Run(s, d, waits).0.pending)
    decreases |waits|
  {
    if s.running && waits != [] {
      match waits[0]
      case Interrupted => RunMessagesBounded(s, d, waits[1..]);
      case WaitFailed =>
      case Ready(events) =>
        BatchMessagesBounded(s, d, events);
        if !Woken(d, events) {
          RunMessagesBounded(Batch(s, d, events), d, waits[1..]);
        }
    }
  }

  /** A wake-up exit means some batch held the wake-up descriptor. */
  lemma {:induction false} RunWokenUpHasWake(s: Registry.State, d: Descriptors, waits: seq<Wait>)
    requires Run(s, d, waits).1 == WokenUp
    ensures exists i :: 0 <= i < |waits| && waits[i].Ready? && Woken(d, waits[i].events)
    decreases |waits|
  {
    assert s.running && waits != [];
    match waits[0]
    case Interrupted =>
      RunWokenUpHasWake(s, d, waits[1..]);
      var i :| 0 <= i < |waits[1..]| && waits[1..][i].Ready? && Woken(d, waits[1..][i].events);
      assert waits[i + 1] == waits[1..][i];
    case Ready(events) =>
      if !Woken(d, events) {
        RunWokenUpHasWake(Batch(s, d, events), d, waits[1..]);
        var i :| 0 <= i < |waits[1..]| && waits[1..][i].Ready? && Woken(d, waits[1..][i].events);
        assert waits[i + 1] == waits[1..][i];
      }
  }
}
