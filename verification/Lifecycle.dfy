/** proxy.c: a connection from being accepted to being freed, one callback at a time. */
module Lifecycle {
  import opened Errors
  import opened Bufs
  import opened EventRows
  import opened Proxy
  import opened Handshakes
  import Events

  /** The connection to the server is under way: only the server's socket is registered. */
  ghost predicate Waiting(m: Table, c: Conn)
    reads c, c.client, c.server, c.client.repr, c.server.repr, c.toClient, c.toServer, c.toClient.data, c.toServer.data
  {
    && Untouched(c) && c.ref == 0
    && c.client.sockFd !in m && c.server.sockFd in m
    && m[c.server.sockFd] == Entry(POLLOUT, Some(PendingConnectCb), Some(c))
  }

  ghost predicate Running(m: Table, c: Conn)
    reads c, c.client, c.server, c.client.repr, c.server.repr, c.toClient, c.toServer, c.toClient.data, c.toServer.data
  {
    Established(m, c, c.client, c.server, c.toClient, c.toServer)
  }

  ghost predicate ConnOk(m: Table, c: Conn)
    reads c, c.client, c.server, c.client.repr, c.server.repr, c.toClient, c.toServer, c.toClient.data, c.toServer.data
  {
    Waiting(m, c) || Running(m, c)
  }

  /** What any callback leaves behind; fx and fy were the descriptors of the two sides. */
  ghost predicate After(m: Table, m': Table, c: Conn, fx: int, fy: int)
    reads c, c.client, c.server, c.client.repr, c.server.repr, c.toClient, c.toServer, c.toClient.data, c.toServer.data
  {
    && m' - {fx, fy} == m - {fx, fy}
    && if c.freed then Finished(c, c.client, c.server, c.toClient, c.toServer) && fx !in m' && fy !in m'
       else ConnOk(m', c) && Still(m', c.client, fx) && Still(m', c.server, fy)
  }

  lemma HandledAfter(m: Table, m': Table, c: Conn, fx: int, fy: int)
    requires Handled(m, m', c, c.client, c.server, c.toClient, c.toServer, fx, fy)
    ensures After(m, m', c, fx, fy)
  {
    hide Established, Finished;
  }

  lemma HandledAfterSwap(m: Table, m': Table, c: Conn, fx: int, fy: int)
    requires Handled(m, m', c, c.server, c.client, c.toServer, c.toClient, fy, fx)
    ensures After(m, m', c, fx, fy)
  {
    hide Established, Sound;
    assert {fx, fy} == {fy, fx};
    if c.freed {
      SoundSwap(c.server, c.client, c.toServer, c.toClient);
    } else {
      EstablishedSwap(m', c, c.server, c.client, c.toServer, c.toClient);
    }
  }

  lemma EstablishedSwap(m: Table, c: Conn, x: Net, y: Net, xb: Buf, yb: Buf)
    requires Established(m, c, x, y, xb, yb)
    ensures Established(m, c, y, x, yb, xb)
  {
    hide Linked, MaskFits;
    LinkedSwap(m, c, x, y, xb, yb);
  }

  /** Both sides have just been registered. */
  lemma Begun(m: Table, c: Conn)
    requires Untouched(c) && c.ref == 2
    requires c.client.sockFd in m && m[c.client.sockFd] == FirstEntry(c, c.client)
    requires c.server.sockFd in m && m[c.server.sockFd] == FirstEntry(c, c.server)
    ensures Running(m, c)
  {
    hide Net.Valid, Conserved;
  }

  /** `close_connection` on a connection that is not established. */
  method Drop(mgr: Manager, c: Conn, ghost m: Table)
    requires mgr.Valid() && Apart(mgr, c.client, c.server) && Untouched(c)
    requires mgr.Table() - {c.client.sockFd, c.server.sockFd} == m - {c.client.sockFd, c.server.sockFd}
    modifies mgr, mgr.pfds, mgr.events, c, c.client, c.server
    ensures mgr.Valid() && Apart(mgr, c.client, c.server)
    ensures c.client.repr == old(c.client.repr) && c.server.repr == old(c.server.repr)
    ensures After(m, mgr.Table(), c, old(c.client.sockFd), old(c.server.sockFd))
    ensures View(mgr.Table(), c) == Step(Over(Cut), old(View(mgr.Table(), c)))
    ensures Events.KeepsPass(old(mgr.Rows()), old(mgr.log), mgr.Rows(), mgr.log)
  {
    hide Net.Valid, AsMap, Used, Events.KeepsPass, WellFormed, Events.RowsOf, Conserved;
    CloseConnection(mgr, c, c.client, c.server, c.toClient, c.toServer);
  }

  /** A connection as seen with its client first. */
  ghost function View(m: Table, c: Conn): (r: Seen)
    reads c, c.client, c.server
  {
    Now(m, c, c.client, c.server)
  }

  /** What `getsockopt` says of a connection that was under way: it may fail itself. */
  datatype Asked = Unknown | Refused | Made

  /** What `pending_connect_callback` is to do. */
  datatype Course = Stay | Close(err: int) | Begin

  function CourseOf(rev: Revents, answer: Asked): (r: Course)
    ensures r == Stay <==> !rev.nval && !rev.trouble && !rev.pollout
    ensures r == Begin <==> !rev.nval && (rev.trouble || rev.pollout) && answer == Made
    ensures r == Close(PROXY_ERR) <==> !rev.nval && (rev.trouble || rev.pollout) && answer == Unknown
    ensures r.Close? ==> r.err == PROXY_ERR || r.err == PROXY_SUCCESS
  {
    if rev.nval then Close(PROXY_SUCCESS)
    else if !rev.trouble && !rev.pollout then Stay
    else match answer
         case Unknown => Close(PROXY_ERR)
         case Refused => Close(PROXY_SUCCESS)
         case Made => Begin
  }

  /** The table in which the pending entry of c has given way to the two of a running connection. */
  ghost function Started(m: Table, c: Conn): (r: Table)
    reads c.client, c.server
  {
    (m - {c.server.sockFd})[c.client.sockFd := FirstEntry(c, c.client)][c.server.sockFd := FirstEntry(c, c.server)]
  }

  /** `pending_connect_callback` */
  method PendingConnect(mgr: Manager, c: Conn, rev: Revents, answer: Asked) returns (err: int)
    requires mgr.Valid() && Apart(mgr, c.client, c.server) && Waiting(mgr.Table(), c)
    modifies mgr, mgr.pfds, mgr.events, mgr.trace, c, c.client, c.server
    ensures mgr.Valid() && Apart(mgr, c.client, c.server)
    ensures c.client.repr == old(c.client.repr) && c.server.repr == old(c.server.repr)
    ensures mgr.trace.calls
         == old(mgr.trace.calls) + [Events.Called(old(c.server.sockFd), rev, Some(PendingConnectCb), Some(c))]
    ensures After(old(mgr.Table()), mgr.Table(), c, old(c.client.sockFd), old(c.server.sockFd))
    ensures match CourseOf(rev, answer)
            case Stay => err == PROXY_SUCCESS && View(mgr.Table(), c) == old(View(mgr.Table(), c))
            case Close(e) => err == e && View(mgr.Table(), c) == Step(Over(Cut), old(View(mgr.Table(), c)))
            case Begin =>
              if |old(mgr.Table())| + 1 <= Events.MAX_EVENTS then
                && err == PROXY_SUCCESS && Running(mgr.Table(), c)
                && View(mgr.Table(), c) == old(View(mgr.Table(), c)).(table := Started(old(mgr.Table()), c))
              else err == PROXY_MAX_EVENTS && View(mgr.Table(), c) == Step(Over(Cut), old(View(mgr.Table(), c)))
    ensures Events.KeepsPass(old(mgr.Rows()), old(mgr.log), mgr.Rows(), mgr.log)
  {
    hide Net.Valid, AsMap, Used, Events.KeepsPass, WellFormed, Events.RowsOf, Sound, Running;
    Events.KeepsPassRefl(mgr.Rows(), mgr.log);
    mgr.trace.Enter(c.server.sockFd, rev, PendingConnectCb, Some(c));
    err := PROXY_SUCCESS;
    if rev.nval {
      Drop(mgr, c, mgr.Table());
    } else if rev.trouble || rev.pollout {
      if answer != Made {
        Drop(mgr, c, mgr.Table());
        err := if answer == Unknown then PROXY_ERR else PROXY_SUCCESS;
      } else {
        err := Complete(mgr, c);
      }
    }
  }

  /** The server has answered: the pending entry gives way to the two of a running connection. */
  method Complete(mgr: Manager, c: Conn) returns (err: int)
    requires mgr.Valid() && Apart(mgr, c.client, c.server) && Waiting(mgr.Table(), c)
    modifies mgr, mgr.pfds, mgr.events, c, c.client, c.server
    ensures mgr.Valid() && Apart(mgr, c.client, c.server)
    ensures c.client.repr == old(c.client.repr) && c.server.repr == old(c.server.repr)
    ensures After(old(mgr.Table()), mgr.Table(), c, old(c.client.sockFd), old(c.server.sockFd))
    ensures if |old(mgr.Table())| + 1 <= Events.MAX_EVENTS then
              && err == PROXY_SUCCESS && Running(mgr.Table(), c)
              && View(mgr.Table(), c) == old(View(mgr.Table(), c)).(table := Started(old(mgr.Table()), c))
            else err == PROXY_MAX_EVENTS && View(mgr.Table(), c) == Step(Over(Cut), old(View(mgr.Table(), c)))
    ensures Events.KeepsPass(old(mgr.Rows()), old(mgr.log), mgr.Rows(), mgr.log)
  {
    hide Net.Valid, AsMap, Used, Events.KeepsPass, WellFormed, Events.RowsOf, Sound, Running;
    ghost var m := mgr.Table();
    OneLess(m, c.server.sockFd);
    var e := mgr.Remove(c.server.sockFd);
    ghost var m1, r, l := mgr.Table(), mgr.Rows(), mgr.log;
    err := AddConnectionEvents(mgr, c);
    Events.KeepsPassTrans(old(mgr.Rows()), old(mgr.log), r, l, mgr.Rows(), mgr.log);
    SameElsewhere(m, m1, mgr.Table(), c.client.sockFd, c.server.sockFd);
    if err != PROXY_SUCCESS {
      ghost var r, l := mgr.Rows(), mgr.log;
      GoneAlready(m, c.client.sockFd, c.server.sockFd);
      Drop(mgr, c, m);
      Events.KeepsPassTrans(old(mgr.Rows()), old(mgr.log), r, l, mgr.Rows(), mgr.log);
    } else {
      Begun(mgr.Table(), c);
    }
  }

  lemma OneLess(m: Table, fd: int)
    requires fd in m
    ensures |m - {fd}| == |m| - 1
  {
    assert (m - {fd}).Keys == m.Keys - {fd};
  }

  lemma GoneAlready(m: Table, a: int, b: int)
    ensures m - {b} - {a, b} == m - {a, b}
  {
  }

  lemma SameElsewhere(m: Table, m1: Table, m2: Table, a: int, b: int)
    requires m1 == m - {b} && (m2 == m1 || (a in m2 && b in m2 && m2 == m1[a := m2[a]][b := m2[b]]))
    ensures m2 - {a, b} == m - {a, b}
  {
  }

  /** The table with a new connection in it: its server's socket alone while that connection is under way, or both. */
  ghost function Entered(m: Table, c: Conn, inProgress: bool): (r: Table)
    reads c.client, c.server
  {
    if inProgress then m[c.server.sockFd := Entry(POLLOUT, Some(PendingConnectCb), Some(c))]
    else m[c.client.sockFd := FirstEntry(c, c.client)][c.server.sockFd := FirstEntry(c, c.server)]
  }

  /**
    The end of `handle_accept`: the connection waits for its server, or runs at
    once; or it cannot be registered, and `accept_callback` frees it.
  */
  method Register(mgr: Manager, c: Conn, inProgress: bool) returns (err: int)
    requires mgr.Valid() && Apart(mgr, c.client, c.server) && Untouched(c) && c.ref == 0
    requires c.client.sockFd !in mgr.Table() && c.server.sockFd !in mgr.Table()
    modifies mgr, mgr.pfds, mgr.events, c
    ensures mgr.Valid() && Apart(mgr, c.client, c.server)
    ensures err == PROXY_SUCCESS || err == PROXY_MAX_EVENTS
    ensures c.freed <==> err != PROXY_SUCCESS
    ensures err == PROXY_SUCCESS ==> if inProgress then Waiting(mgr.Table(), c) else Running(mgr.Table(), c)
    ensures err == if |old(mgr.Table())| + (if inProgress then 1 else 2) <= Events.MAX_EVENTS then PROXY_SUCCESS
                   else PROXY_MAX_EVENTS
    ensures mgr.Table() == if err == PROXY_SUCCESS then Entered(old(mgr.Table()), c, inProgress) else old(mgr.Table())
    ensures mgr.Table() - {c.client.sockFd, c.server.sockFd} == old(mgr.Table()) - {c.client.sockFd, c.server.sockFd}
    ensures Events.KeepsPass(old(mgr.Rows()), old(mgr.log), mgr.Rows(), mgr.log)
  {
    hide Net.Valid, AsMap, Used, Events.KeepsPass, WellFormed, Events.RowsOf, Sound, Running;
    ghost var m := mgr.Table();
    TableSize(mgr);
    if inProgress {
      err := mgr.Add(c.server.sockFd, POLLOUT, Some(c), Some(PendingConnectCb));
    } else {
      err := AddConnectionEvents(mgr, c);
      if err == PROXY_SUCCESS {
        Begun(mgr.Table(), c);
      }
    }
    if err != PROXY_SUCCESS {
      c.freed := true;
    }
  }

  /** The memory of one connection. */
  ghost function Foot(c: Conn): (r: set<object>)
    reads c.client, c.server
  {
    {c, c.toClient, c.toServer, c.toClient.data, c.toServer.data} + c.client.repr + c.server.repr
  }

  ghost predicate Listed(m: Table, c: Conn, fd: int, cb: Callback)
    reads c.client, c.server
  {
    fd in m && m[fd].callback == Some(cb) && m[fd].data == Some(c) && (fd == c.client.sockFd || fd == c.server.sockFd)
  }

  lemma RunningFacts(m: Table, c: Conn)
    requires Running(m, c)
    ensures c.client in c.client.repr && c.server in c.server.repr && c.client.sockFd != c.server.sockFd
    ensures c.client.sockFd >= -1 && c.server.sockFd >= -1
  {
    hide Net.Valid, Retries, Conserved;
  }

  /** `handshake_callback`: the descriptor says which side it is about. */
  method HandshakeCallback(mgr: Manager, c: Conn, fd: int, rev: Revents) returns (err: int)
    requires mgr.Valid() && Apart(mgr, c.client, c.server) && Running(mgr.Table(), c) && fd >= 0
    requires Listed(mgr.Table(), c, fd, HandshakeCb)
    modifies mgr, mgr.pfds, mgr.events, mgr.trace, Foot(c)
    ensures mgr.Valid() && Apart(mgr, c.client, c.server)
    ensures mgr.trace.calls == old(mgr.trace.calls) + [Events.Called(fd, rev, Some(HandshakeCb), Some(c))]
    ensures After(old(mgr.Table()), mgr.Table(), c, old(c.client.sockFd), old(c.server.sockFd))
    ensures forall o <- Foot(c) :: o in old(Foot(c)) || fresh(o)
    ensures Events.KeepsPass(old(mgr.Rows()), old(mgr.log), mgr.Rows(), mgr.log)
  {
    hide Established, AsMap, Used, Events.KeepsPass, WellFormed, Events.RowsOf, Handled, After;
    RunningFacts(mgr.Table(), c);
    ghost var m, fx, fy := mgr.Table(), c.client.sockFd, c.server.sockFd;
    if fd == c.client.sockFd {
      ghost var ret, unsent;
      err, ret, unsent := HandshakeOn(mgr, c, c.client, c.server, c.toClient, c.toServer, rev);
      HandledAfter(m, mgr.Table(), c, fx, fy);
    } else {
      EstablishedSwap(m, c, c.client, c.server, c.toClient, c.toServer);
      ghost var ret, unsent;
      err, ret, unsent := HandshakeOn(mgr, c, c.server, c.client, c.toServer, c.toClient, rev);
      HandledAfterSwap(m, mgr.Table(), c, fx, fy);
    }
  }

  /** `conn_callback`: likewise. */
  method ConnCallback(mgr: Manager, c: Conn, fd: int, rev: Revents) returns (err: int)
    requires mgr.Valid() && Apart(mgr, c.client, c.server) && Running(mgr.Table(), c) && fd >= 0
    requires Listed(mgr.Table(), c, fd, ConnCb) && (rev.pollout ==> WantsOut(mgr.Table()[fd].mask))
    modifies mgr, mgr.pfds, mgr.events, mgr.trace, Foot(c)
    ensures mgr.Valid() && Apart(mgr, c.client, c.server)
    ensures mgr.trace.calls == old(mgr.trace.calls) + [Events.Called(fd, rev, Some(ConnCb), Some(c))]
    ensures After(old(mgr.Table()), mgr.Table(), c, old(c.client.sockFd), old(c.server.sockFd))
    ensures c.client.repr == old(c.client.repr) && c.server.repr == old(c.server.repr)
    ensures Events.KeepsPass(old(mgr.Rows()), old(mgr.log), mgr.Rows(), mgr.log)
  {
    hide Established, AsMap, Used, Events.KeepsPass, WellFormed, Events.RowsOf, Handled, After;
    RunningFacts(mgr.Table(), c);
    ghost var m, fx, fy := mgr.Table(), c.client.sockFd, c.server.sockFd;
    if fd == c.client.sockFd {
      ghost var mid;
      err, mid := DataOn(mgr, c, c.client, c.server, c.toClient, c.toServer, rev);
      HandledAfter(m, mgr.Table(), c, fx, fy);
    } else {
      EstablishedSwap(m, c, c.client, c.server, c.toClient, c.toServer);
      ghost var mid;
      err, mid := DataOn(mgr, c, c.server, c.client, c.toServer, c.toClient, rev);
      HandledAfterSwap(m, mgr.Table(), c, fx, fy);
    }
  }

  /** A registered callback of a connection, called with its own descriptor and data. */
  method Fire(mgr: Manager, c: Conn, fd: int, rev: Revents, cb: Callback) returns (err: int)
    requires mgr.Valid() && Apart(mgr, c.client, c.server) && ConnOk(mgr.Table(), c) && fd >= 0
    requires Listed(mgr.Table(), c, fd, cb) && (rev.pollout ==> WantsOut(mgr.Table()[fd].mask))
    modifies mgr, mgr.pfds, mgr.events, mgr.trace, Foot(c)
    ensures mgr.Valid() && Apart(mgr, c.client, c.server)
    ensures mgr.trace.calls == old(mgr.trace.calls) + [Events.Called(fd, rev, Some(cb), Some(c))]
    ensures After(old(mgr.Table()), mgr.Table(), c, old(c.client.sockFd), old(c.server.sockFd))
    ensures forall o <- Foot(c) :: o in old(Foot(c)) || fresh(o)
    ensures Events.KeepsPass(old(mgr.Rows()), old(mgr.log), mgr.Rows(), mgr.log)
  {
    hide Waiting, Running, AsMap, Used, Events.KeepsPass, WellFormed, Events.RowsOf, After;
    WhichCallback(mgr.Table(), c, fd, cb);
    if cb == PendingConnectCb {
      var answer: Asked := *;
      err := PendingConnect(mgr, c, rev, answer);
    } else if cb == HandshakeCb {
      err := HandshakeCallback(mgr, c, fd, rev);
    } else {
      err := ConnCallback(mgr, c, fd, rev);
    }
  }

  lemma WhichCallback(m: Table, c: Conn, fd: int, cb: Callback)
    requires ConnOk(m, c) && Listed(m, c, fd, cb) && fd >= 0
    ensures c.client in c.client.repr && c.server in c.server.repr
    ensures if cb == PendingConnectCb then Waiting(m, c) && fd == c.server.sockFd
            else Running(m, c) && (cb == HandshakeCb || cb == ConnCb)
  {
    hide Net.Valid, Retries, Conserved;
  }
}
