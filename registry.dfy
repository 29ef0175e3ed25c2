/** The server's sequential state between system calls — the client registry,
    the two connection counters, the running and shutdown flags, and the tasks
    handed to the worker pool — and how each handler changes it. System call
    results are inputs. */
module Registry {
  import Framing
  import Protocol

  /** Counters are `size_t`: 64-bit unsigned, wrapping on overflow. */
  const SIZE_LIMIT: nat := 0x1_0000_0000_0000_0000
  type Size = n: nat | n < SIZE_LIMIT

  function Inc(n: Size): Size {
    if n + 1 == SIZE_LIMIT then 0 else n + 1
  }

  function Dec(n: Size): Size {
    if n == 0 then SIZE_LIMIT - 1 else n - 1
  }

  /** A peer's `sockaddr_in`, kept opaque. */
  datatype Address = Address(host: nat, port: nat)

  /** A registry entry: the connection's descriptor and its peer address. */
  datatype ClientInfo = ClientInfo(fd: int, peer: Address)

  /** The closure handed to the worker pool: reply on a connection, or to a
      datagram sender. */
  datatype Task =
    | StreamReply(fd: int, peer: Address, message: string)
    | DatagramReply(peer: Address, message: string)

  /** What a worker writes back once a task has run. */
  datatype Outgoing = Send(fd: int, data: string) | SendTo(peer: Address, data: string)

  datatype State = State(
    clients: map<int, ClientInfo>,
    total: Size,
    current: Size,
    running: bool,
    shutdown: bool,
    pending: seq<Task>)

  /** The state right after a successful start. */
  function Started(): State {
    State(map[], 0, 0, true, false, [])
  }

  /** Registry size never exceeds the current count, which never exceeds the
      total count; every entry is filed under its own descriptor. */
  ghost predicate Inv(s: State) {
    && |s.clients| <= s.current <= s.total
    && forall fd :: fd in s.clients ==> s.clients[fd].fd == fd
  }

  /** `handleTcpConnection`: `acceptedFd` is what `accept` returned and
      `registered` whether `epoll_ctl` took the new descriptor. */
  function Accept(s: State, acceptedFd: int, peer: Address, registered: bool): (r: State)
    ensures r.running == s.running && r.shutdown == s.shutdown && r.pending == s.pending
    ensures r.clients.Keys <= s.clients.Keys + {acceptedFd}
    ensures r != s ==> acceptedFd != -1 && registered
  {
    if acceptedFd == -1 || !registered then s
    else s.(clients := s.clients[acceptedFd := ClientInfo(acceptedFd, peer)],
             total := Inc(s.total), current := Inc(s.current))
  }

  /** A set of descriptors that is not empty has a member. */
  lemma SomeFd(fds: set<int>)
    requires fds != {}
    ensures exists fd :: fd in fds
  {
    if forall fd :: fd !in fds {
      assert false;
    }
  }

  /** `closeClient`. */
  function CloseClient(s: State, fd: int): (r: State)
    ensures r.clients.Keys == s.clients.Keys - {fd} && r.total == s.total
    ensures r.running == s.running && r.shutdown == s.shutdown && r.pending == s.pending
  {
    if fd in s.clients then s.(clients := s.clients - {fd}, current := Dec(s.current))
    else s
  }

  /** The state part of `stop`: not running, registry emptied. */
  function Stop(s: State): (r: State)
    ensures |r.clients| == 0 && !r.running
    ensures r.total == s.total && r.current == s.current
  {
    s.(running := false, clients := map[])
  }

  /** `handleTcpMessage`: `received` is what `recv` returned, `bytes` what it read. */
  function TcpRead(s: State, fd: int, received: int, bytes: string): (r: State)
    ensures s.pending <= r.pending && |r.pending| <= |s.pending| + 1
    ensures r.total == s.total && r.running == s.running && r.shutdown == s.shutdown
  {
    if received <= 0 then CloseClient(s, fd)
    else if fd !in s.clients then s
    else s.(pending := s.pending + [StreamReply(fd, s.clients[fd].peer, Framing.Inbound(received, bytes))])
  }

  /** `handleUdpMessage`: `sender` is the address `recvfrom` filled in. */
  function UdpRead(s: State, received: int, bytes: string, sender: Address): (r: State)
    ensures s.pending <= r.pending && |r.pending| <= |s.pending| + 1
    ensures r.(pending := s.pending) == s
  {
    if received <= 0 then s
    else s.(pending := s.pending + [DatagramReply(sender, Framing.Inbound(received, bytes))])
  }

  /** `processMessage` on the server: the reply to `message` and the state after
      it; `/shutdown` sets the shutdown flag and then stops the server. */
  function Execute(s: State, message: string, clock: string): (r: (State, string))
    ensures r.0.total == s.total && r.0.current == s.current && r.0.pending == s.pending
    ensures r.0 != s ==> r.1 == ""
  {
    var reply := Protocol.Process(message, clock, Protocol.Stats(s.total, s.current));
    if reply.shutdownRequested then (Stop(s.(shutdown := true)), reply.text)
    else (s, reply.text)
  }

  /** `processTcpMessage` / `processUdpMessage`: a worker runs a task and writes
      the reply, even an empty one, to where the task came from. */
  function RunTask(s: State, task: Task, clock: string): (r: (State, Outgoing))
    ensures r.0 == Execute(s, task.message, clock).0
    ensures r.1.data == Execute(s, task.message, clock).1
  {
    var (after, text) := Execute(s, task.message, clock);
    match task
    case StreamReply(fd, _, _) => (after, Send(fd, text))
    case DatagramReply(peer, _) => (after, SendTo(peer, text))
  }

  // ---------------------------------------------------------------------------
  // Accept

  lemma AcceptFailureIsNoop(s: State, acceptedFd: int, peer: Address, registered: bool)
    requires acceptedFd == -1 || !registered
    ensures Accept(s, acceptedFd, peer, registered) == s
  {
  }

  /** A successful accept files the new descriptor under itself (replacing any
      entry there), leaves every other entry alone and counts one more client. */
  lemma AcceptRegisters(s: State, fd: int, peer: Address)
    requires fd != -1 && Inv(s) && s.total < SIZE_LIMIT - 1
    ensures var r := Accept(s, fd, peer, true);
      && fd in r.clients && r.clients[fd] == ClientInfo(fd, peer)
      && (forall k :: k != fd ==> (k in r.clients <==> k in s.clients))
      && (forall k :: k != fd && k in s.clients ==> r.clients[k] == s.clients[k])
      && r.total == s.total + 1 && r.current == s.current + 1
      && r.running == s.running && r.shutdown == s.shutdown && r.pending == s.pending
  {
  }

  lemma AcceptPreservesInv(s: State, acceptedFd: int, peer: Address, registered: bool)
    requires Inv(s) && s.total < SIZE_LIMIT - 1
    ensures Inv(Accept(s, acceptedFd, peer, registered))
  {
    if acceptedFd != -1 && registered {
      var m := s.clients[acceptedFd := ClientInfo(acceptedFd, peer)];
      assert m.Keys == s.clients.Keys + {acceptedFd};
      assert |m.Keys| <= |s.clients.Keys| + 1;
    }
  }

  // ---------------------------------------------------------------------------
  // closeClient

  /** For a registered descriptor only that entry goes and the current count
      drops by one; the total is kept. */
  lemma CloseClientRemoves(s: State, fd: int)
    requires Inv(s) && fd in s.clients
    ensures var r := CloseClient(s, fd);
      && r.clients.Keys == s.clients.Keys - {fd}
      && (forall k :: k in r.clients ==> r.clients[k] == s.clients[k])
      && |r.clients| == |s.clients| - 1
      && r.current == s.current - 1 && r.total == s.total
      && r.running == s.running && r.shutdown == s.shutdown && r.pending == s.pending
  {
  }

  lemma CloseClientAbsentIsNoop(s: State, fd: int)
    requires fd !in s.clients
    ensures CloseClient(s, fd) == s
  {
  }

  lemma CloseClientPreservesInv(s: State, fd: int)
    requires Inv(s)
    ensures Inv(CloseClient(s, fd))
  {
    if fd in s.clients {
      assert |s.clients - {fd}| == |s.clients| - 1;
    }
  }

  // ---------------------------------------------------------------------------
  // stop

  /** stop empties the registry and clears running, and keeps the counters,
      the shutdown flag and the queued tasks. */
  lemma StopEmptiesRegistry(s: State)
    ensures var r := Stop(s);
      && r.clients == map[] && !r.running
      && r.total == s.total && r.current == s.current
      && r.shutdown == s.shutdown && r.pending == s.pending
  {
  }

  lemma StopPreservesInv(s: State)
    requires Inv(s)
    ensures Inv(Stop(s))
  {
  }

  /** Calling stop twice leaves the same state as calling it once (descriptor
      closing is outside this state). */
  lemma StopIdempotent(s: State)
    ensures Stop(Stop(s)) == Stop(s)
  {
  }

  // ---------------------------------------------------------------------------
  // Client reads

  /** The read gate in `handleTcpMessage`: a failed or empty read closes the
      client and queues nothing; a read on an unregistered descriptor queues
      nothing; any other read queues exactly one reply task carrying the trimmed
      message and the stored peer address. */
  lemma TcpReadOutcome(s: State, fd: int, received: int, bytes: string)
    ensures var r := TcpRead(s, fd, received, bytes);
      && (received <= 0 ==> r == CloseClient(s, fd) && r.pending == s.pending)
      && (received > 0 && fd !in s.clients ==> r == s)
      && (received > 0 && fd in s.clients ==>
            r == s.(pending := s.pending + [StreamReply(fd, s.clients[fd].peer, Framing.Inbound(received, bytes))]))
  {
  }

  /** Every queued message holds at most MAX_READ characters and no NUL. */
  ghost predicate MessagesBounded(tasks: seq<Task>) {
    forall i :: 0 <= i < |tasks| ==>
      |tasks[i].message| <= Framing.MAX_READ && Framing.NUL !in tasks[i].message
  }

  /** Whatever a client read queues comes from the first `received` bytes, so
      it holds at most MAX_READ characters and no NUL. */
  lemma TcpReadMessageBound(s: State, fd: int, received: int, bytes: string)
    ensures var r := TcpRead(s, fd, received, bytes);
      && MessagesBounded(r.pending[|s.pending|..])
      && forall i :: |s.pending| <= i < |r.pending| ==> |r.pending[i].message| <= received
  {
  }

  lemma TcpReadPreservesInv(s: State, fd: int, received: int, bytes: string)
    requires Inv(s)
    ensures Inv(TcpRead(s, fd, received, bytes))
  {
    CloseClientPreservesInv(s, fd);
  }

  /** A datagram read of one or more bytes queues exactly one reply to its
      sender; otherwise nothing happens. */
  lemma UdpReadOutcome(s: State, received: int, bytes: string, sender: Address)
    ensures var r := UdpRead(s, received, bytes, sender);
      && (received <= 0 ==> r == s)
      && (received > 0 ==> r == s.(pending := s.pending + [DatagramReply(sender, Framing.Inbound(received, bytes))]))
  {
  }

  /** The datagram counterpart of TcpReadMessageBound. */
  lemma UdpReadMessageBound(s: State, received: int, bytes: string, sender: Address)
    ensures var r := UdpRead(s, received, bytes, sender);
      && MessagesBounded(r.pending[|s.pending|..])
      && forall i :: |s.pending| <= i < |r.pending| ==> |r.pending[i].message| <= received
  {
  }

  lemma UdpReadPreservesInv(s: State, received: int, bytes: string, sender: Address)
    requires Inv(s)
    ensures Inv(UdpRead(s, received, bytes, sender))
  {
  }

  // ---------------------------------------------------------------------------
  // Running a task

  /** Only `/shutdown` changes the state, and it leaves the server stopped with
      the shutdown flag set, an empty registry and the counters as they were. */
  lemma ExecuteChangesStateOnlyOnShutdown(s: State, message: string, clock: string)
    ensures var (r, text) := Execute(s, message, clock);
      && (message != Protocol.SHUTDOWN_COMMAND ==> r == s)
      && (message == Protocol.SHUTDOWN_COMMAND ==>
            text == "" && r.shutdown && !r.running && r.clients == map[]
            && r.total == s.total && r.current == s.current && r.pending == s.pending)
  {
  }

  /** The `/stats` reply reports the counters as they were when the task ran. */
  lemma ExecuteStats(s: State, clock: string)
    ensures Protocol.ParseStats(Execute(s, Protocol.STATS_COMMAND, clock).1) == Protocol.Some((s.total as nat, s.current as nat))
  {
    Protocol.StatsRoundTrip(s.total, s.current);
  }

  lemma ExecutePreservesInv(s: State, message: string, clock: string)
    requires Inv(s)
    ensures Inv(Execute(s, message, clock).0)
  {
  }

  /** A reply goes back on the connection (for a stream task) or to the sender
      (for a datagram task) that the task names. */
  lemma RunTaskRepliesToOrigin(s: State, task: Task, clock: string)
    ensures var (_, out) := RunTask(s, task, clock);
      && (task.StreamReply? ==> out == Send(task.fd, Execute(s, task.message, clock).1))
      && (task.DatagramReply? ==> out == SendTo(task.peer, Execute(s, task.message, clock).1))
  {
  }

  /** A task queued by a client read, whenever it runs, answers that same
      connection with the processed text of what was read. */
  lemma TcpReadThenRun(s: State, fd: int, received: int, bytes: string, later: State, clock: string)
    requires received > 0 && fd in s.clients
    ensures var queued := TcpRead(s, fd, received, bytes).pending;
      && |queued| == |s.pending| + 1
      && RunTask(later, queued[|s.pending|], clock).1 ==
           Send(fd, Protocol.Process(Framing.Inbound(received, bytes), clock,
                                     Protocol.Stats(later.total, later.current)).text)
  {
  }

  /** A task queued by a datagram read answers its sender the same way. */
  lemma UdpReadThenRun(s: State, received: int, bytes: string, sender: Address, later: State, clock: string)
    requires received > 0
    ensures var queued := UdpRead(s, received, bytes, sender).pending;
      && |queued| == |s.pending| + 1
      && RunTask(later, queued[|s.pending|], clock).1 ==
           SendTo(sender, Protocol.Process(Framing.Inbound(received, bytes), clock,
                                           Protocol.Stats(later.total, later.current)).text)
  {
  }

  /** A client sends one whole line on a registered connection, and its task
      runs next: the reply on that connection is what processing the line
      without its newline gives. */
  lemma ReadLineThenRun(s: State, fd: int, line: string, clock: string)
    requires fd in s.clients
    requires Framing.NUL !in line && !Framing.EndsWithLineBreak(line) && |line| < Framing.MAX_READ
    ensures var r := TcpRead(s, fd, |line| + 1, line + "\n");
      && |r.pending| == |s.pending| + 1
      && RunTask(r, r.pending[|s.pending|], clock) == (Execute(r, line, clock).0, Send(fd, Execute(r, line, clock).1))
  {
    Framing.InboundLine(line);
  }

  /** "hello\n" on a registered connection is answered with "hello" there. */
  lemma EchoLine(s: State, fd: int, clock: string)
    requires fd in s.clients
    ensures var r := TcpRead(s, fd, 6, "hello\n");
      RunTask(r, r.pending[|s.pending|], clock) == (r, Send(fd, "hello"))
  {
    assert "hello" + "\n" == "hello\n";
    ReadLineThenRun(s, fd, "hello", clock);
  }

  /** "/stats\n" is answered with the stats text of the counters as they are. */
  lemma StatsLine(s: State, fd: int, clock: string)
    requires fd in s.clients
    ensures var r := TcpRead(s, fd, 7, "/stats\n");
      RunTask(r, r.pending[|s.pending|], clock) == (r, Send(fd, Protocol.Stats(s.total, s.current)))
  {
    assert Protocol.STATS_COMMAND + "\n" == "/stats\n";
    ReadLineThenRun(s, fd, Protocol.STATS_COMMAND, clock);
  }

  /** "/shutdown\n" is answered with empty text and stops the server. */
  lemma ShutdownLine(s: State, fd: int, clock: string)
    requires fd in s.clients
    ensures var r := TcpRead(s, fd, 10, "/shutdown\n");
      RunTask(r, r.pending[|s.pending|], clock) == (Stop(r.(shutdown := true)), Send(fd, ""))
  {
    assert Protocol.SHUTDOWN_COMMAND + "\n" == "/shutdown\n";
    ReadLineThenRun(s, fd, Protocol.SHUTDOWN_COMMAND, clock);
  }

  /** One client connects, sends "hello\n", "/stats\n" and "/shutdown\n", and
      each task runs as soon as it is queued: the first reply is "hello", the
      second is the stats text of one client in total and one current (which
      reads back as that pair, by Protocol.StatsRoundTrip), and the third is
      empty and leaves the server stopped with an empty registry. */
  lemma StreamSession(peer: Address, clock: string)
    ensures var s1 := TcpRead(Accept(Started(), 7, peer, true), 7, 6, "hello\n");
      var s2 := TcpRead(s1, 7, 7, "/stats\n");
      var s3 := TcpRead(s2, 7, 10, "/shutdown\n");
      && RunTask(s1, s1.pending[0], clock) == (s1, Send(7, "hello"))
      && RunTask(s2, s2.pending[1], clock) == (s2, Send(7, Protocol.Stats(1, 1)))
      && RunTask(s3, s3.pending[2], clock).1 == Send(7, "")
      && !RunTask(s3, s3.pending[2], clock).0.running
      && RunTask(s3, s3.pending[2], clock).0.clients == map[]
  {
    var s0 := Accept(Started(), 7, peer, true);
    assert s0.total == 1 && s0.current == 1 && 7 in s0.clients && s0.pending == [];
    EchoLine(s0, 7, clock);
    var s1 := TcpRead(s0, 7, 6, "hello\n");
    StatsLine(s1, 7, clock);
    var s2 := TcpRead(s1, 7, 7, "/stats\n");
    ShutdownLine(s2, 7, clock);
  }

  // ---------------------------------------------------------------------------
  // Counting clients over many events

  /** While nothing has stopped the server and every accepted descriptor is a
      fresh one, the current count is exactly the registry size. */
  ghost predicate CountsMatch(s: State) {
    s.current == |s.clients|
  }

  lemma AcceptFreshKeepsCountsMatch(s: State, fd: int, peer: Address, registered: bool)
    requires CountsMatch(s) && fd !in s.clients && s.current < SIZE_LIMIT - 1
    ensures CountsMatch(Accept(s, fd, peer, registered))
  {
  }

  lemma CloseClientKeepsCountsMatch(s: State, fd: int)
    requires CountsMatch(s)
    ensures CountsMatch(CloseClient(s, fd))
  {
  }

  /** stop does not: it empties the registry but leaves the current count. */
  lemma StopBreaksCountsMatch()
    ensures var s := Accept(Started(), 5, Address(0, 0), true);
      CountsMatch(s) && !CountsMatch(Stop(s)) && Stop(s).current == 1
  {
    var s := Accept(Started(), 5, Address(0, 0), true);
    assert s.clients == map[5 := ClientInfo(5, Address(0, 0))];
  }

  ghost predicate Distinct(fds: seq<int>) {
    forall i, j :: 0 <= i < j < |fds| ==> fds[i] != fds[j]
  }

  function FdsOf(conns: seq<ClientInfo>): (fds: seq<int>)
    ensures |fds| == |conns| && forall i :: 0 <= i < |conns| ==> fds[i] == conns[i].fd
  {
    if conns == [] then [] else [conns[0].fd] + FdsOf(conns[1..])
  }

  /** Successful accepts of the given connections, one after another. */
  function ConnectAll(s: State, conns: seq<ClientInfo>): State
    decreases |conns|
  {
    if conns == [] then s else ConnectAll(Accept(s, conns[0].fd, conns[0].peer, true), conns[1..])
  }

  /** Closing the given descriptors, one after another. */
  function CloseAll(s: State, fds: seq<int>): State
    decreases |fds|
  {
    if fds == [] then s else CloseAll(CloseClient(s, fds[0]), fds[1..])
  }

  lemma {:induction false} ConnectAllCounts(s: State, conns: seq<ClientInfo>)
    requires Distinct(FdsOf(conns))
    requires forall i :: 0 <= i < |conns| ==> conns[i].fd != -1 && conns[i].fd !in s.clients
    requires s.total + |conns| < SIZE_LIMIT && s.current <= s.total
    ensures var r := ConnectAll(s, conns);
      && r.total == s.total + |conns| && r.current == s.current + |conns|
      && |r.clients| == |s.clients| + |conns|
      && s.clients.Keys <= r.clients.Keys
      && forall i :: 0 <= i < |conns| ==> conns[i].fd in r.clients
    decreases |conns|
  {
    if conns != [] {
      var c := conns[0];
      var s' := Accept(s, c.fd, c.peer, true);
      assert s'.clients.Keys == s.clients.Keys + {c.fd};
      var rest := conns[1..];
      assert FdsOf(rest) == FdsOf(conns)[1..];
      forall i | 0 <= i < |rest|
        ensures rest[i].fd != -1 && rest[i].fd !in s'.clients
      {
        assert rest[i] == conns[i + 1];
        assert FdsOf(conns)[0] != FdsOf(conns)[i + 1];
      }
      ConnectAllCounts(s', rest);
      forall i | 0 <= i < |conns| ensures conns[i].fd in ConnectAll(s, conns).clients {
        if i > 0 { assert conns[i] == rest[i - 1]; }
      }
    }
  }

  lemma {:induction false} CloseAllCounts(s: State, fds: seq<int>)
    requires Inv(s) && Distinct(fds)
    requires forall i :: 0 <= i < |fds| ==> fds[i] in s.clients
    ensures var r := CloseAll(s, fds);
      && r.current == s.current - |fds| && r.total == s.total
      && |r.clients| == |s.clients| - |fds|
    decreases |fds|
  {
    if fds != [] {
      var s' := CloseClient(s, fds[0]);
      CloseClientRemoves(s, fds[0]);
      CloseClientPreservesInv(s, fds[0]);
      var rest := fds[1..];
      forall i | 0 <= i < |rest| ensures rest[i] in s'.clients {
        assert rest[i] == fds[i + 1] && fds[0] != fds[i + 1];
      }
      CloseAllCounts(s', rest);
    }
  }

  /** N successful accepts of fresh descriptors from a started server count N
      clients in total and N current; closing M of them leaves N - M current and
      N in total. */
  lemma ConnectThenClose(conns: seq<ClientInfo>, closed: seq<int>)
    requires Distinct(FdsOf(conns)) && Distinct(closed)
    requires forall i :: 0 <= i < |conns| ==> conns[i].fd != -1
    requires forall i :: 0 <= i < |closed| ==> closed[i] in FdsOf(conns)
    requires |conns| < SIZE_LIMIT
    ensures var connected := ConnectAll(Started(), conns);
      && connected.total == |conns| && connected.current == |conns|
      && CloseAll(connected, closed).total == |conns|
      && CloseAll(connected, closed).current == |conns| - |closed|
  {
    ConnectAllCounts(Started(), conns);
    var connected := ConnectAll(Started(), conns);
    assert Inv(connected) by {
      ConnectAllPreservesInv(Started(), conns);
    }
    forall i | 0 <= i < |closed| ensures closed[i] in connected.clients {
      var j :| 0 <= j < |conns| && FdsOf(conns)[j] == closed[i];
      assert conns[j].fd == closed[i];
    }
    CloseAllCounts(connected, closed);
  }

  lemma {:induction false} ConnectAllPreservesInv(s: State, conns: seq<ClientInfo>)
    requires Inv(s) && s.total + |conns| < SIZE_LIMIT
    ensures Inv(ConnectAll(s, conns))
    decreases |conns|
  {
    if conns != [] {
      AcceptPreservesInv(s, conns[0].fd, conns[0].peer, true);
      ConnectAllPreservesInv(Accept(s, conns[0].fd, conns[0].peer, true), conns[1..]);
    }
  }
}
