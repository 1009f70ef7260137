/** The upstream TLS session of the gateway (namespace Network), reduced to the
    two fields it keeps about its connection, the upstream host name and the
    "connected" flag, and to the order in which its operations touch them.
    Every network step (name resolution, TCP connect, setting the SNI name, the
    TLS handshake, the TLS shutdown, closing the socket, writing and reading
    HTTP messages) is an outcome supplied by the caller: true when the step
    succeeds. A step that fails raises an error that leaves the operation at once. */
module Network {
  import opened Wrappers

  /** The network steps a session can perform */
  datatype IoStep = Resolve | TcpConnect | SetSni | Handshake | Shutdown | CloseSocket | Write | Read

  /** How an operation ends: normally, or by the error of the step that failed */
  datatype Status = Done | Failed(at: IoStep)

  /** The outcomes of the four steps of connecting, in the order they run */
  datatype ConnectIo = ConnectIo(resolve: bool, tcpConnect: bool, sni: bool, handshake: bool)
  {
    /** The outcome of the i-th step of ConnectSteps */
    function Ok(i: nat): bool
      requires i < 4
    {
      [resolve, tcpConnect, sni, handshake][i]
    }

    predicate AllSucceed()
    {
      resolve && tcpConnect && sni && handshake
    }
  }

  /** The steps of connecting, in the order the session runs them */
  const ConnectSteps: seq<IoStep> := [Resolve, TcpConnect, SetSni, Handshake]

  /** What the session records about its upstream connection */
  datatype Link = Link(host: string, connected: bool)

  /** What one call does: the state it leaves, the I/O it performs, how it ends */
  datatype Effect = Effect(after: Link, performed: seq<IoStep>, status: Status)

  // ---------------------------------------------------------------------------
  // Specification of the operations on the abstract state
  // ---------------------------------------------------------------------------

  /** How many connect steps run: all of them up to and including the first
      one that fails, or all four */
  function Attempts(io: ConnectIo): (n: nat)
    ensures 1 <= n <= 4
    ensures forall i :: 0 <= i < n - 1 ==> io.Ok(i)
    ensures n < 4 ==> !io.Ok(n - 1)
    ensures io.AllSucceed() <==> n == 4 && io.Ok(3)
  {
    if !io.resolve then 1 else if !io.tcpConnect then 2 else if !io.sni then 3 else 4
  }

  /** Connecting to `h`: nothing happens when already connected to `h`;
      otherwise the host is recorded first, the steps run until one fails, and
      the flag is raised only after a successful handshake (it is never lowered) */
  function Connect(s: Link, h: string, io: ConnectIo): Effect
  {
    if s.connected && s.host == h then Effect(s, [], Done)
    else
      var n := Attempts(io);
      Effect(Link(h, s.connected || io.AllSucceed()),
             ConnectSteps[..n],
             if io.AllSucceed() then Done else Failed(ConnectSteps[n - 1]))
  }

  /** Disconnecting: the flag is lowered before the shutdown is attempted; the
      socket is closed only after a successful shutdown, and closing can fail too */
  function Stop(s: Link, shutdownOk: bool, closeOk: bool): Effect
  {
    Effect(Link(s.host, false),
           if shutdownOk then [Shutdown, CloseSocket] else [Shutdown],
           if !shutdownOk then Failed(Shutdown) else if !closeOk then Failed(CloseSocket) else Done)
  }

  // ---------------------------------------------------------------------------
  // Properties of the specification
  // ---------------------------------------------------------------------------

  /** Steps run in order, and each one runs only after all earlier ones succeeded */
  lemma ConnectStepsInOrder(s: Link, h: string, io: ConnectIo)
    ensures var e := Connect(s, h, io);
      e.performed <= ConnectSteps &&
      (forall i :: 0 <= i < |e.performed| - 1 ==> io.Ok(i)) &&
      (e.status == Done <==> (s.connected && s.host == h) || io.AllSucceed()) &&
      (e.status.Failed? ==> e.status.at == e.performed[|e.performed| - 1] && !io.Ok(|e.performed| - 1))
  {
  }

  /** Connecting to the host already connected performs no I/O and changes nothing */
  lemma ConnectSameHostIsNoOp(s: Link, h: string, io: ConnectIo)
    requires s.connected && s.host == h
    ensures Connect(s, h, io) == Effect(s, [], Done)
  {
  }

  /** Otherwise the host is recorded whatever the outcome, at least resolution
      is attempted, and the flag is set iff it was set before or all four
      steps succeed */
  lemma ConnectRecordsHost(s: Link, h: string, io: ConnectIo)
    requires !(s.connected && s.host == h)
    ensures var e := Connect(s, h, io);
      e.after.host == h && |e.performed| >= 1 && e.performed[0] == Resolve &&
      (e.after.connected <==> s.connected || io.AllSucceed()) &&
      (Handshake in e.performed <==> io.resolve && io.tcpConnect && io.sni)
  {
    var n := Attempts(io);
    assert Connect(s, h, io).performed == ConnectSteps[..n];
    if Handshake in ConnectSteps[..n] {
      var j :| 0 <= j < n && ConnectSteps[j] == Handshake;
      assert j == 3;
    }
    if io.resolve && io.tcpConnect && io.sni {
      assert ConnectSteps[..n][3] == Handshake;
    }
  }

  /** A failed switch from a connected session keeps the flag raised while the
      recorded host is already the new one */
  lemma FailedSwitchClaimsConnected(s: Link, h: string, io: ConnectIo)
    requires s.connected && s.host != h && !io.AllSucceed()
    ensures Connect(s, h, io).after == Link(h, true)
    ensures Connect(s, h, io).status.Failed?
  {
  }

  /** ... so the next attempt to reach that host performs no I/O at all and
      reports success: the session never retries by itself */
  lemma StaleSessionNeverRetries(s: Link, h: string, io1: ConnectIo, io2: ConnectIo)
    requires s.connected && s.host != h && !io1.AllSucceed()
    ensures Connect(Connect(s, h, io1).after, h, io2) == Effect(Link(h, true), [], Done)
  {
  }

  /** After a disconnect, connecting again runs the connect steps afresh */
  lemma StopThenConnectRetries(s: Link, shutdownOk: bool, closeOk: bool, h: string, io: ConnectIo)
    ensures var e := Connect(Stop(s, shutdownOk, closeOk).after, h, io);
      |e.performed| >= 1 && e.performed[0] == Resolve &&
      (e.after.connected <==> io.AllSucceed())
  {
  }

  /** Disconnecting leaves the session disconnected whether or not the
      shutdown succeeds, and keeps the recorded host */
  lemma StopDisconnects(s: Link, shutdownOk: bool, closeOk: bool)
    ensures Stop(s, shutdownOk, closeOk).after == Link(s.host, false)
    ensures Stop(s, shutdownOk, closeOk).performed[0] == Shutdown
    ensures CloseSocket in Stop(s, shutdownOk, closeOk).performed <==> shutdownOk
    ensures Stop(s, shutdownOk, closeOk).status == Done <==> shutdownOk && closeOk
  {
  }

  // ---------------------------------------------------------------------------
  // Sequences of calls
  // ---------------------------------------------------------------------------

  /** A call on the session, with the outcomes of its network steps */
  datatype Call = ConnectCall(h: string, io: ConnectIo) | StopCall(shutdownOk: bool, closeOk: bool) | SendCall

  /** The state after one call; an exchange leaves the state alone */
  function Apply(s: Link, c: Call): Link
  {
    match c
    case ConnectCall(h, io) => Connect(s, h, io).after
    case StopCall(shutdownOk, closeOk) => Stop(s, shutdownOk, closeOk).after
    case SendCall => s
  }

  /** The state after the calls, made one after another */
  function Run(s: Link, calls: seq<Call>): Link
  {
    if calls == [] then s else Apply(Run(s, calls[..|calls| - 1]), calls[|calls| - 1])
  }

  /** The state of a fresh session */
  const Fresh: Link := Link("", false)

  /** The i-th call is a connect that ran all four steps, each succeeding */
  ghost predicate HandshakeAt(calls: seq<Call>, i: int)
    requires 0 <= i < |calls|
  {
    && calls[i].ConnectCall?
    && calls[i].io.AllSucceed()
    && Connect(Run(Fresh, calls[..i]), calls[i].h, calls[i].io).performed == ConnectSteps
  }

  /** Some connect actually ran a successful handshake, with no disconnect after it */
  ghost predicate HandshakeSinceLastStop(calls: seq<Call>)
  {
    exists i :: 0 <= i < |calls| && HandshakeAt(calls, i) &&
      forall j :: i < j < |calls| ==> !calls[j].StopCall?
  }

  /** What the flag does guarantee: starting from a fresh session, it is raised
      only if some connect ran all four steps with success since the last
      disconnect (though not necessarily to the host now recorded) */
  lemma {:induction false} ConnectedOnlyAfterHandshake(calls: seq<Call>)
    ensures Run(Fresh, calls).connected ==> HandshakeSinceLastStop(calls)
  {
    if calls != [] {
      var n := |calls| - 1;
      var front, last := calls[..n], calls[n];
      assert calls[..n] == front;
      ConnectedOnlyAfterHandshake(front);
      if Run(Fresh, calls).connected {
        if !Run(Fresh, front).connected {
          assert last.ConnectCall? && last.io.AllSucceed();
          assert Attempts(last.io) == 4;
          assert ConnectSteps[..4] == ConnectSteps;
          assert HandshakeAt(calls, n);
        } else {
          assert !last.StopCall?;
          var i :| 0 <= i < |front| && HandshakeAt(front, i) &&
            forall j :: i < j < |front| ==> !front[j].StopCall?;
          assert calls[i] == front[i];
          assert calls[..i] == front[..i];
          assert HandshakeAt(calls, i);
          assert forall j :: i < j < |calls| ==> !calls[j].StopCall? by {
            forall j | i < j < |calls| ensures !calls[j].StopCall? {
              if j < n { assert calls[j] == front[j]; }
            }
          }
        }
      }
    }
  }

  // ---------------------------------------------------------------------------
  // The session object
  // ---------------------------------------------------------------------------

  class Session {
    var host: string
    var connected: bool

    function State(): Link
      reads this
    {
      Link(host, connected)
    }

    /** A fresh session is disconnected and has no host */
    constructor ()
      ensures State() == Fresh
    {
      host := "";
      connected := false;
    }

    /** Brings up the connection to `h`, step by step */
    method ConnectToSender(h: string, io: ConnectIo) returns (performed: seq<IoStep>, status: Status)
      modifies this
      ensures Effect(State(), performed, status) == Connect(old(State()), h, io)
    {
      performed := [];
      if connected && host == h {
        status := Done;
        return;
      }
      host := h;
      performed := performed + [Resolve];
      if !io.resolve {
        status := Failed(Resolve);
        return;
      }
      performed := performed + [TcpConnect];
      if !io.tcpConnect {
        status := Failed(TcpConnect);
        return;
      }
      performed := performed + [SetSni];
      if !io.sni {
        status := Failed(SetSni);
        return;
      }
      performed := performed + [Handshake];
      if !io.handshake {
        status := Failed(Handshake);
        return;
      }
      connected := true;
      status := Done;
    }

    /** Takes the connection down: the flag first, then the TLS shutdown, then the socket */
    method StopConnectToSender(shutdownOk: bool, closeOk: bool) returns (performed: seq<IoStep>, status: Status)
      modifies this
      ensures Effect(State(), performed, status) == Stop(old(State()), shutdownOk, closeOk)
    {
      connected := false;
      performed := [Shutdown];
      if !shutdownOk {
        status := Failed(Shutdown);
        return;
      }
      performed := performed + [CloseSocket];
      if !closeOk {
        status := Failed(CloseSocket);
        return;
      }
      status := Done;
    }

    /** One exchange on the stream: write the request, then read one response.
        The host and the flag are neither consulted nor changed, so nothing
        stops a call on a disconnected session; `reply` is what the read
        delivers when it succeeds */
    method SendRequest(writeOk: bool, readOk: bool, reply: string)
      returns (performed: seq<IoStep>, status: Status, response: Option<string>)
      ensures performed == if writeOk then [Write, Read] else [Write]
      ensures status == Done <==> writeOk && readOk
      ensures status.Failed? ==> status.at == performed[|performed| - 1]
      ensures response.Some? <==> status == Done
      ensures response.Some? ==> response.value == reply
    {
      performed := [Write];
      if !writeOk {
        return [Write], Failed(Write), None;
      }
      performed := performed + [Read];
      if !readOk {
        return performed, Failed(Read), None;
      }
      status, response := Done, Some(reply);
    }
  }
}
