/** proxy.c: how a connection comes into the event table and gets from key exchange to data. */
module Handshakes {
  import opened Errors
  import opened Wires
  import opened NetNacl
  import opened Bufs
  import opened EventRows
  import opened Proxy
  import Events

  /** A context for the key exchange, if there is none yet. */
  method Prepare(c: Conn, x: Net, ghost y: Net, ghost xb: Buf, ghost yb: Buf, ghost m: Table, ghost mgr: Manager)
    requires Apart(mgr, x, y) && Established(m, c, x, y, xb, yb)
    requires x.sockFd >= 0 && m[x.sockFd].callback == Some(HandshakeCb)
    modifies x`nn, x`repr, x`mine
    ensures Apart(mgr, x, y) && Established(m, c, x, y, xb, yb) && x.nn != null
    ensures forall o <- x.repr :: o in old(x.repr) || fresh(o)
    ensures x.coming == old(x.coming)
  {
    hide Net.Valid, Buf.Unsent, Carries;
    if x.nn == null {
      x.Create();
      ContextInside(x);
      assert y.Valid() && Retries(y, yb);
    }
  }

  /**
    A call of `netnacl_wrap` has been made. It came to an end, or sending the key
    or receiving the peer's was stopped by the last outcome there: a side that
    would have to wait is waited for, and anything else is an error.
  */
  ghost predicate Wrapped(
      recvs: seq<Io>, recvs': seq<Io>, sends: seq<Io>, sends': seq<Io>, unsent: bool, ret: int)
  {
    || (ret == NN_SUCCESS && !unsent)
    || (unsent && sends < sends' && !Last(sends').Moved?
        && ret == if Last(sends').Blocked? then NN_WANT_WRITE else NN_ERR)
    || (!unsent && recvs < recvs' && !Last(recvs').Moved?
        && ret == if Last(recvs').Blocked? then NN_WANT_READ else NN_ERR)
  }

  /** The key exchange of x goes on; nothing else about the connection changes. */
  method Advance(c: Conn, x: Net, ghost y: Net, ghost xb: Buf, ghost yb: Buf, ghost m: Table, ghost mgr: Manager)
    returns (ret: int)
    requires Apart(mgr, x, y) && Established(m, c, x, y, xb, yb)
    requires x.sockFd >= 0 && m[x.sockFd].callback == Some(HandshakeCb) && x.nn != null
    modifies x.repr
    ensures Apart(mgr, x, y) && Established(m, c, x, y, xb, yb)
    ensures x.repr == old(x.repr) && y.repr == old(y.repr)
    ensures x.sockFd == old(x.sockFd) && y.sockFd == old(y.sockFd) && xb.size == old(xb.size)
    ensures ret == NN_SUCCESS <==> x.Ready()
    ensures ret == NN_SUCCESS || ret == NN_WANT_READ || ret == NN_WANT_WRITE || ret == NN_ERR
    ensures (ret == NN_WANT_WRITE ==> x.KeyUnsent()) && (ret == NN_WANT_READ ==> !x.KeyUnsent())
    ensures Wrapped(old(x.inp.recvs), x.inp.recvs, old(x.out.sends), x.out.sends, x.KeyUnsent(), ret)
  {
    hide Net.Valid, Buf.Unsent, Carries;
    ret := x.Proceed();
    ContextInside(x);
    assert y.Valid() && Retries(y, yb);
  }

  /** An entry is taken out of the table and a new one put in its place. */
  method Replace(mgr: Manager, fd: int, mask: int, c: Conn) returns (err: int)
    requires mgr.Valid() && fd >= 0 && fd in mgr.Table() && mask != 0
    modifies mgr, mgr.pfds, mgr.events
    ensures mgr.Valid() && err == PROXY_SUCCESS
    ensures mgr.Table() == old(mgr.Table())[fd := Entry(mask, Some(ConnCb), Some(c))]
    ensures Events.KeepsPass(old(mgr.Rows()), old(mgr.log), mgr.Rows(), mgr.log)
  {
    hide AsMap, Used, Events.KeepsPass, WellFormed, Events.RowsOf;
    ghost var m := mgr.Table();
    TableSize(mgr);
    var e := mgr.Remove(fd);
    ghost var r, l := mgr.Rows(), mgr.log;
    SizeLess(m, fd);
    err := mgr.Add(fd, mask, Some(c), Some(ConnCb));
    Events.KeepsPassTrans(old(mgr.Rows()), old(mgr.log), r, l, mgr.Rows(), mgr.log);
    PutBack(m, fd, Entry(mask, Some(ConnCb), Some(c)));
  }

  /** The key is there: the side's entry is replaced by one for data. */
  method Switch(mgr: Manager, c: Conn, x: Net, ghost y: Net, ghost xb: Buf, ghost yb: Buf, mask: int) returns (err: int)
    requires mgr.Valid() && Apart(mgr, x, y) && Established(mgr.Table(), c, x, y, xb, yb)
    requires x.sockFd >= 0 && x.Ready() && mask == if xb.size > 0 then POLLOUT else POLLIN
    modifies mgr, mgr.pfds, mgr.events
    ensures mgr.Valid() && Apart(mgr, x, y) && Established(mgr.Table(), c, x, y, xb, yb)
    ensures mgr.Table() == old(mgr.Table())[x.sockFd := Entry(mask, Some(ConnCb), Some(c))]
    ensures err == PROXY_SUCCESS
    ensures Events.KeepsPass(old(mgr.Rows()), old(mgr.log), mgr.Rows(), mgr.log)
  {
    hide Net.Valid, AsMap, Used, Events.KeepsPass, WellFormed, Events.RowsOf, Linked, MaskFits;
    ghost var m := mgr.Table();
    InTable(m, c, x, y, xb, yb);
    err := Replace(mgr, x.sockFd, mask, c);
    assert Established(m, c, x, y, xb, yb);
    DataEntry(m, c, x, y, xb, yb, mask);
  }

  lemma InTable(m: Table, c: Conn, x: Net, y: Net, xb: Buf, yb: Buf)
    requires Established(m, c, x, y, xb, yb) && x.sockFd >= 0
    ensures x.sockFd in m && m[x.sockFd].data == Some(c)
  {
    hide Net.Valid, Sound, Retries;
  }

  lemma DataEntry(m: Table, c: Conn, x: Net, y: Net, xb: Buf, yb: Buf, mask: int)
    requires Established(m, c, x, y, xb, yb) && x.sockFd >= 0 && x.Ready()
    requires mask == if xb.size > 0 then POLLOUT else POLLIN
    ensures Established(m[x.sockFd := Entry(mask, Some(ConnCb), Some(c))], c, x, y, xb, yb)
  {
    hide Net.Valid, Sound, Retries;
  }

  /** The exchange must wait: the side's entry asks for what it waits for. */
  method Await(mgr: Manager, c: Conn, x: Net, ghost y: Net, ghost xb: Buf, ghost yb: Buf, mask: int) returns (err: int)
    requires mgr.Valid() && Apart(mgr, x, y) && Established(mgr.Table(), c, x, y, xb, yb)
    requires x.sockFd >= 0 && mgr.Table()[x.sockFd].callback == Some(HandshakeCb) && (mask == POLLIN || mask == POLLOUT)
    modifies mgr, mgr.pfds, mgr.events
    ensures mgr.Valid() && Apart(mgr, x, y) && Established(mgr.Table(), c, x, y, xb, yb)
    ensures mgr.Table() == old(mgr.Table())[x.sockFd := Entry(mask, Some(HandshakeCb), Some(c))]
    ensures err == PROXY_SUCCESS
    ensures Events.KeepsPass(old(mgr.Rows()), old(mgr.log), mgr.Rows(), mgr.log)
  {
    hide Net.Valid, AsMap, Used, Events.KeepsPass, WellFormed, Events.RowsOf, Linked, MaskFits;
    ghost var m := mgr.Table();
    InTable(m, c, x, y, xb, yb);
    err := mgr.Modify(x.sockFd, mask);
    assert Established(m, c, x, y, xb, yb);
    assert m[x.sockFd].(mask := mask) == Entry(mask, Some(HandshakeCb), Some(c));
    WaitEntry(m, c, x, y, xb, yb, mask);
  }

  lemma WaitEntry(m: Table, c: Conn, x: Net, y: Net, xb: Buf, yb: Buf, mask: int)
    requires Established(m, c, x, y, xb, yb) && x.sockFd >= 0 && m[x.sockFd].callback == Some(HandshakeCb)
    requires mask == POLLIN || mask == POLLOUT
    ensures Established(m[x.sockFd := Entry(mask, Some(HandshakeCb), Some(c))], c, x, y, xb, yb)
  {
    hide Net.Valid, Sound, Retries;
  }

  lemma PutBack(m: Table, fd: int, e: Entry<Callback, Conn>)
    ensures (m - {fd})[fd := e] == m[fd := e]
  {
  }

  lemma SizeLess(m: Table, fd: int)
    requires fd in m
    ensures |m - {fd}| < |m|
  {
    assert (m - {fd}).Keys == m.Keys - {fd};
    assert |m.Keys - {fd}| == |m.Keys| - 1;
  }

  lemma TableSize(mgr: Manager)
    requires mgr.Valid()
    ensures |mgr.Table()| <= Events.MAX_EVENTS
  {
    UsedIsCardWf(mgr.Rows());
    UsedFull(mgr.Rows());
  }

  /**
    `do_handshake`. While the exchange must wait, the entry asks for the
    direction it waits for; once the key is there, the entry is one for data
    whose mask fits the buffer; on failure the table is as it was.
  */
  method DoHandshake(mgr: Manager, c: Conn, x: Net, ghost y: Net, xb: Buf, ghost yb: Buf)
    returns (err: int, ghost ret: int)
    requires mgr.Valid() && Apart(mgr, x, y) && Established(mgr.Table(), c, x, y, xb, yb)
    requires x.sockFd >= 0 && mgr.Table()[x.sockFd].callback == Some(HandshakeCb)
    modifies mgr, mgr.pfds, mgr.events, x.repr
    ensures mgr.Valid() && Apart(mgr, x, y) && Established(mgr.Table(), c, x, y, xb, yb)
    ensures forall o <- x.repr :: o in old(x.repr) || fresh(o)
    ensures y.repr == old(y.repr) && x.sockFd == old(x.sockFd) && y.sockFd == old(y.sockFd)
    ensures err == if ret == NN_ERR then NN_ERR else PROXY_SUCCESS
    ensures Wrapped(old(x.inp.recvs), x.inp.recvs, old(x.out.sends), x.out.sends, x.KeyUnsent(), ret)
    ensures c.freed == old(c.freed) && c.ending == old(c.ending)
    ensures mgr.Table() == if err == NN_ERR then old(mgr.Table())
                           else old(mgr.Table())[x.sockFd := mgr.Table()[x.sockFd]]
    ensures err == PROXY_SUCCESS ==> mgr.Table()[x.sockFd] == NextEntry(c, x, xb)
    ensures ret == NN_WANT_READ ==> mgr.Table()[x.sockFd] == Entry(POLLIN, Some(HandshakeCb), Some(c))
    ensures ret == NN_WANT_WRITE ==> mgr.Table()[x.sockFd] == Entry(POLLOUT, Some(HandshakeCb), Some(c))
    ensures ret == NN_SUCCESS ==> mgr.Table()[x.sockFd].callback == Some(ConnCb)
    ensures Events.KeepsPass(old(mgr.Rows()), old(mgr.log), mgr.Rows(), mgr.log)
  {
    hide Net.Valid, AsMap, Used, Events.KeepsPass, WellFormed, Events.RowsOf, Established, Net.Ready, Net.KeyUnsent;
    OwnMemory(mgr.Table(), c, x, y, xb, yb);
    Events.KeepsPassRefl(mgr.Rows(), mgr.log);
    var mask := if xb.size > 0 then POLLOUT else POLLIN;
    Prepare(c, x, y, xb, yb, mgr.Table(), mgr);
    var answer := Advance(c, x, y, xb, yb, mgr.Table(), mgr);
    ret := answer;
    assert mgr.Valid() && mgr.Table() == old(mgr.Table()) && mgr.Rows() == old(mgr.Rows()) && mgr.log == old(mgr.log);
    hide Events.EventManager.Valid;
    if answer == NN_SUCCESS {
      err := Switch(mgr, c, x, y, xb, yb, mask);
    } else if answer == NN_WANT_READ {
      err := Await(mgr, c, x, y, xb, yb, POLLIN);
    } else if answer == NN_WANT_WRITE {
      err := Await(mgr, c, x, y, xb, yb, POLLOUT);
    } else {
      err := answer;
    }
  }

  /** What the entry of a side in the key exchange becomes: the progress of the exchange decides. */
  ghost function NextEntry(c: Conn, x: Net, xb: Buf): (r: Entry<Callback, Conn>)
    reads x, x.repr, xb
  {
    if x.Ready() then Entry(if xb.size > 0 then POLLOUT else POLLIN, Some(ConnCb), Some(c))
    else Entry(if x.KeyUnsent() then POLLOUT else POLLIN, Some(HandshakeCb), Some(c))
  }

  /** `handshake_callback` for side x. */
  method HandshakeOn(mgr: Manager, c: Conn, x: Net, ghost y: Net, xb: Buf, ghost yb: Buf, rev: Revents)
    returns (err: int, ghost ret: int, ghost unsent: bool)
    requires mgr.Valid() && Apart(mgr, x, y) && Established(mgr.Table(), c, x, y, xb, yb)
    requires x.sockFd >= 0 && mgr.Table()[x.sockFd].callback == Some(HandshakeCb)
    modifies mgr, mgr.pfds, mgr.events, mgr.trace, c, x.repr, y
    ensures mgr.Valid() && Apart(mgr, x, y) && y.repr == old(y.repr)
    ensures mgr.trace.calls == old(mgr.trace.calls) + [Events.Called(old(x.sockFd), rev, Some(HandshakeCb), Some(c))]
    ensures forall o <- x.repr :: o in old(x.repr) || fresh(o)
    ensures Handled(old(mgr.Table()), mgr.Table(), c, x, y, xb, yb, old(x.sockFd), old(y.sockFd))
    ensures if rev.trouble || rev.nval then
              err == PROXY_ERR && Now(mgr.Table(), c, x, y) == Step(Over(Cut), old(Now(mgr.Table(), c, x, y)))
            else
              && Wrapped(old(x.inp.recvs), x.inp.recvs, old(x.out.sends), x.out.sends, unsent, ret)
              && err == PROXY_SUCCESS
              && if ret == NN_ERR then Now(mgr.Table(), c, x, y) == Step(Over(Cut), old(Now(mgr.Table(), c, x, y)))
                 else
                   && x.KeyUnsent() == unsent
                   && Now(mgr.Table(), c, x, y) == old(Now(mgr.Table(), c, x, y)).(
                        table := old(mgr.Table())[x.sockFd := NextEntry(c, x, xb)])
    ensures Events.KeepsPass(old(mgr.Rows()), old(mgr.log), mgr.Rows(), mgr.log)
  {
    hide Established, AsMap, Used, Events.KeepsPass, WellFormed, Events.RowsOf, Handled, Apart, NextEntry, Wrapped;
    OwnMemory(mgr.Table(), c, x, y, xb, yb);
    TraceApart(mgr, x, y);
    mgr.trace.Enter(x.sockFd, rev, HandshakeCb, Some(c));
    ret, unsent := NN_SUCCESS, false;
    if rev.trouble || rev.nval {
      Abort(mgr, c, x, y, xb, yb, mgr.Table());
      return PROXY_ERR, ret, unsent;
    }
    ghost var m := mgr.Table();
    err, ret := DoHandshake(mgr, c, x, y, xb, yb);
    unsent := x.KeyUnsent();
    MinusTwo(mgr.Table(), x.sockFd, y.sockFd);
    MinusTwo(m, x.sockFd, y.sockFd);
    if err != PROXY_SUCCESS {
      err := if err == NN_ERR then PROXY_SUCCESS else err;
      ghost var r, l := mgr.Rows(), mgr.log;
      Abort(mgr, c, x, y, xb, yb, m);
      Events.KeepsPassTrans(old(mgr.Rows()), old(mgr.log), r, l, mgr.Rows(), mgr.log);
    } else {
      InOrder(m, mgr.Table(), c, x, y, xb, yb);
    }
  }

  lemma TraceApart(mgr: Manager, x: Net, y: Net)
    requires Apart(mgr, x, y)
    ensures mgr.trace !in x.repr && mgr.trace !in y.repr
  {
  }

  lemma InOrder(m: Table, m': Table, c: Conn, x: Net, y: Net, xb: Buf, yb: Buf)
    requires Established(m', c, x, y, xb, yb) && m' - {x.sockFd, y.sockFd} == m - {x.sockFd, y.sockFd}
    ensures Handled(m, m', c, x, y, xb, yb, x.sockFd, y.sockFd)
  {
    hide Sound, Retries, SideOk, MaskFits;
  }

  /** Closing an established connection, whatever was done to its own entries before. */
  method Abort(mgr: Manager, c: Conn, ghost x: Net, ghost y: Net, ghost xb: Buf, ghost yb: Buf, ghost m: Table)
    requires mgr.Valid() && Apart(mgr, x, y) && Established(mgr.Table(), c, x, y, xb, yb)
    requires mgr.Table() - {x.sockFd, y.sockFd} == m - {x.sockFd, y.sockFd}
    modifies mgr, mgr.pfds, mgr.events, c, x, y
    ensures mgr.Valid() && Apart(mgr, x, y) && x.repr == old(x.repr) && y.repr == old(y.repr)
    ensures Handled(m, mgr.Table(), c, x, y, xb, yb, old(x.sockFd), old(y.sockFd))
    ensures Now(mgr.Table(), c, x, y) == Step(Over(Cut), old(Now(mgr.Table(), c, x, y)))
    ensures x.coming == old(x.coming)
    ensures Events.KeepsPass(old(mgr.Rows()), old(mgr.log), mgr.Rows(), mgr.log)
  {
    hide Net.Valid, AsMap, Used, Events.KeepsPass, WellFormed, Events.RowsOf, Retries, Conserved, SideOk, MaskFits;
    EstablishedFacts(mgr.Table(), c, x, y, xb, yb);
    CloseConnection(mgr, c, x, y, xb, yb);
  }

  /** `conn_callback` for side x; a closed descriptor in the table ends the loop and touches nothing. */
  method DataOn(mgr: Manager, c: Conn, x: Net, y: Net, xb: Buf, yb: Buf, rev: Revents)
    returns (err: int, ghost mid: Between)
    requires mgr.Valid() && Apart(mgr, x, y) && Established(mgr.Table(), c, x, y, xb, yb)
    requires x.sockFd >= 0 && mgr.Table()[x.sockFd].callback == Some(ConnCb)
    requires rev.pollout ==> WantsOut(mgr.Table()[x.sockFd].mask)
    modifies mgr, mgr.pfds, mgr.events, mgr.trace, c, x.repr, y, xb, yb, yb.data
    ensures mgr.Valid() && Apart(mgr, x, y) && x.repr == old(x.repr) && y.repr == old(y.repr)
    ensures mgr.trace.calls == old(mgr.trace.calls) + [Events.Called(old(x.sockFd), rev, Some(ConnCb), Some(c))]
    ensures Handled(old(mgr.Table()), mgr.Table(), c, x, y, xb, yb, old(x.sockFd), old(y.sockFd))
    ensures if rev.nval then
              err == PROXY_ERR && Now(mgr.Table(), c, x, y) == old(Now(mgr.Table(), c, x, y))
            else if rev.trouble then
              err == PROXY_SUCCESS && Now(mgr.Table(), c, x, y) == Step(Over(Cut), old(Now(mgr.Table(), c, x, y)))
            else
              Served(rev, old(SideOf(x, xb, yb)), SideOf(x, xb, yb), old(Now(mgr.Table(), c, x, y)),
                     Now(mgr.Table(), c, x, y), err, !x.encrypted, c.DoneBy(x), c.DoneBy(y), mid)
    ensures Events.KeepsPass(old(mgr.Rows()), old(mgr.log), mgr.Rows(), mgr.log)
  {
    hide Net.Valid, AsMap, Used, Events.KeepsPass, WellFormed, Events.RowsOf, Retries, Served, SideOf;
    EstablishedFacts(mgr.Table(), c, x, y, xb, yb);
    Events.KeepsPassRefl(mgr.Rows(), mgr.log);
    mgr.trace.Enter(x.sockFd, rev, ConnCb, Some(c));
    mid := Between(SideOf(x, xb, yb), Now(mgr.Table(), c, x, y), 0, 0, 0, 0);
    if rev.nval {
      return PROXY_ERR, mid;
    }
    if rev.trouble {
      Abort(mgr, c, x, y, xb, yb, mgr.Table());
      return PROXY_SUCCESS, mid;
    }
    err, mid := OnReady(mgr, c, x, y, xb, yb, rev);
  }

  // ---------- coming into the table ----------

  /** A connection with two open sockets on which nothing has moved. */
  ghost predicate Untouched(c: Conn)
    reads c, c.client, c.server, c.client.repr, c.server.repr, c.toClient, c.toServer, c.toClient.data, c.toServer.data
  {
    && !c.freed && c.ending == Cut && c !in c.client.repr && c !in c.server.repr
    && Sound(c.client, c.server, c.toClient, c.toServer)
    && c.client.sockFd >= 0 && c.server.sockFd >= 0 && c.client.sockFd != c.server.sockFd
    && c.toClient.size == 0 && c.toServer.size == 0
    && !c.client.InFlight() && !c.server.InFlight()
  }

  function FirstEntry(c: Conn, net: Net): (r: Entry<Callback, Conn>) {
    if net.encrypted then Entry(POLLOUT, Some(HandshakeCb), Some(c)) else Entry(POLLIN, Some(ConnCb), Some(c))
  }

  /**
    A side is registered for what it has to do first: the entry is the one that
    the key exchange of a new context, or the empty buffer of a plain side, asks for.
  */
  lemma FirstIsNext(c: Conn, x: Net, xb: Buf)
    requires xb.size == 0
    requires x.encrypted ==> x.nn != null && x.nn in x.repr && x.nn.keyBytesSent == 0 && x.nn.keyBytesRecvd == 0
    ensures FirstEntry(c, x) == NextEntry(c, x, xb)
  {
  }

  /** `add_connection_events`: both sides are registered, or neither is. */
  method AddConnectionEvents(mgr: Manager, c: Conn) returns (err: int)
    requires mgr.Valid() && Apart(mgr, c.client, c.server) && Untouched(c) && c.ref == 0
    requires c.client.sockFd !in mgr.Table() && c.server.sockFd !in mgr.Table()
    modifies mgr, mgr.pfds, mgr.events, c`ref
    ensures mgr.Valid() && Apart(mgr, c.client, c.server) && Untouched(c)
    ensures err == if |old(mgr.Table())| + 2 <= Events.MAX_EVENTS then PROXY_SUCCESS else PROXY_MAX_EVENTS
    ensures err == PROXY_SUCCESS ==> c.ref == 2
    ensures mgr.Table() ==
      if err == PROXY_SUCCESS then
        old(mgr.Table())[c.client.sockFd := FirstEntry(c, c.client)][c.server.sockFd := FirstEntry(c, c.server)]
      else old(mgr.Table())
    ensures Events.KeepsPass(old(mgr.Rows()), old(mgr.log), mgr.Rows(), mgr.log)
  {
    hide Net.Valid, AsMap, Used, Events.KeepsPass, WellFormed, Events.RowsOf, Conserved, Separate, Net.InFlight;
    ghost var m := mgr.Table();
    TableSize(mgr);
    err := AddSide(mgr, c, c.client);
    if err != PROXY_SUCCESS {
      return;
    }
    c.ref := c.ref + 1;
    ghost var r, l := mgr.Rows(), mgr.log;
    err := AddServer(mgr, c);
    Events.KeepsPassTrans(old(mgr.Rows()), old(mgr.log), r, l, mgr.Rows(), mgr.log);
    if err != PROXY_SUCCESS {
      TakeBack(m, c.client.sockFd, FirstEntry(c, c.client));
    }
  }

  lemma TakeBack(m: Table, fd: int, e: Entry<Callback, Conn>)
    requires fd !in m
    ensures m[fd := e] - {fd} == m && |m[fd := e]| == |m| + 1
  {
    assert m[fd := e].Keys == m.Keys + {fd};
  }

  /** The second registration; without it the first is taken back. */
  method AddServer(mgr: Manager, c: Conn) returns (err: int)
    requires mgr.Valid() && c.server.sockFd >= 0 && c.client.sockFd >= 0
    requires c.server.sockFd !in mgr.Table() && c.client.sockFd in mgr.Table()
    modifies mgr, mgr.pfds, mgr.events, c`ref
    ensures mgr.Valid()
    ensures err == if |old(mgr.Table())| == Events.MAX_EVENTS then PROXY_MAX_EVENTS else PROXY_SUCCESS
    ensures c.ref == old(c.ref) + if err == PROXY_SUCCESS then 1 else 0
    ensures mgr.Table() ==
      if err == PROXY_SUCCESS then old(mgr.Table())[c.server.sockFd := FirstEntry(c, c.server)]
      else old(mgr.Table()) - {c.client.sockFd}
    ensures Events.KeepsPass(old(mgr.Rows()), old(mgr.log), mgr.Rows(), mgr.log)
  {
    hide Net.Valid, AsMap, Used, Events.KeepsPass, WellFormed, Events.RowsOf;
    err := AddSide(mgr, c, c.server);
    if err != PROXY_SUCCESS {
      ghost var r, l := mgr.Rows(), mgr.log;
      var e := mgr.Remove(c.client.sockFd);
      Events.KeepsPassTrans(old(mgr.Rows()), old(mgr.log), r, l, mgr.Rows(), mgr.log);
    } else {
      c.ref := c.ref + 1;
    }
  }

  method AddSide(mgr: Manager, c: Conn, net: Net) returns (err: int)
    requires mgr.Valid() && net.sockFd >= 0 && net.sockFd !in mgr.Table()
    modifies mgr, mgr.pfds, mgr.events
    ensures mgr.Valid()
    ensures err == if |old(mgr.Table())| == Events.MAX_EVENTS then PROXY_MAX_EVENTS else PROXY_SUCCESS
    ensures mgr.Table() ==
      if err == PROXY_SUCCESS then old(mgr.Table())[net.sockFd := FirstEntry(c, net)] else old(mgr.Table())
    ensures Events.KeepsPass(old(mgr.Rows()), old(mgr.log), mgr.Rows(), mgr.log)
  {
    hide AsMap, Used, Events.KeepsPass, WellFormed, Events.RowsOf;
    if net.encrypted {
      err := mgr.Add(net.sockFd, POLLOUT, Some(c), Some(HandshakeCb));
    } else {
      err := mgr.Add(net.sockFd, POLLIN, Some(c), Some(ConnCb));
    }
  }
}
