/** proxy.c and event.c: the end of the proxy. Which connections are freed, and that none is freed twice. */
module Shutdown {
  import opened Errors
  import opened Bits
  import opened Wires
  import opened Bufs
  import opened EventRows
  import opened Proxy
  import opened Handshakes
  import opened Lifecycle
  import opened Server
  import Events

  type Slot = Row<Callback, Conn>

  /** In how many slots the connection stands. */
  ghost function Count(rows: seq<Slot>, c: Conn): (r: nat) {
    if rows == [] then 0 else (if rows[0].data == Some(c) then 1 else 0) + Count(rows[1..], c)
  }

  ghost predicate Holds(rows: seq<Slot>, fd: int) {
    exists k :: 0 <= k < |rows| && rows[k].fd == fd
  }

  ghost predicate Marks(rows: seq<Slot>, c: Conn, a: int, b: int) {
    forall k :: 0 <= k < |rows| ==>
      (rows[k].data == Some(c) <==> rows[k].fd >= 0 && (rows[k].fd == a || rows[k].fd == b))
  }

  /** A connection stands in one slot for each of its registered descriptors. */
  lemma {:induction false} CountTwo(rows: seq<Slot>, c: Conn, a: int, b: int)
    requires Distinct(rows) && Marks(rows, c, a, b) && (a == b ==> a < 0)
    ensures Count(rows, c) == (if a >= 0 && Holds(rows, a) then 1 else 0) + (if b >= 0 && Holds(rows, b) then 1 else 0)
  {
    if rows != [] {
      var tail := rows[1..];
      assert Distinct(tail) by {
        forall i, j | 0 <= i < j < |tail| && tail[i].fd >= 0
          ensures tail[i].fd != tail[j].fd
        {
          assert rows[i + 1].fd != rows[j + 1].fd;
        }
      }
      CountTwo(tail, c, a, b);
      HoldsFirst(rows, a);
      HoldsFirst(rows, b);
    }
  }

  lemma HoldsFirst(rows: seq<Slot>, fd: int)
    requires rows != [] && Distinct(rows)
    ensures Holds(rows, fd) <==> rows[0].fd == fd || Holds(rows[1..], fd)
    ensures fd >= 0 && rows[0].fd == fd ==> !Holds(rows[1..], fd)
  {
    if Holds(rows, fd) && rows[0].fd != fd {
      var k :| 0 <= k < |rows| && rows[k].fd == fd;
      assert rows[1..][k - 1].fd == fd;
    }
  }

  /** One side has ended and been closed while the other goes on. */
  predicate HalfClosed(c: Conn)
    reads c.client, c.server
  {
    (c.client.sockFd < 0) != (c.server.sockFd < 0)
  }

  /** How the reference count of a connection relates to the k slots still to be visited. */
  ghost predicate Balanced(c: Conn, k: nat)
    reads c, c.client, c.server
  {
    if HalfClosed(c) then !c.freed && c.ref == k + 1 && k <= 1
    else if k == 0 then c.freed
    else !c.freed && k <= 2 && (if k == 2 then c.ref == 2 else c.ref <= 1)
  }

  /** `free_connection`: the connection is still allocated whenever this is called. */
  method FreeConnection(c: Conn)
    requires !c.freed
    modifies c
    ensures if old(c.ref) <= 1 then c.freed && c.ref == old(c.ref) else !c.freed && c.ref == old(c.ref) - 1
  {
    if c.ref <= 1 {
      c.freed := true;
    } else {
      c.ref := c.ref - 1;
    }
  }

  lemma RefFits(m: Table, c: Conn)
    requires Fine(m, c) && -1 !in m
    ensures c.client.sockFd == c.server.sockFd ==> c.client.sockFd < 0
    ensures if c.freed then c.client.sockFd == -1 && c.server.sockFd == -1
            else if HalfClosed(c) then c.ref == 2 && (c.client.sockFd in m <==> c.server.sockFd !in m)
            else if c.client.sockFd in m then c.ref == 2 && c.server.sockFd in m
            else c.ref == 0 && c.server.sockFd in m
    ensures c.client.sockFd < 0 ==> c.client.sockFd == -1
    ensures c.server.sockFd < 0 ==> c.server.sockFd == -1
  {
    hide Net.Valid, Retries, Conserved, Separate;
  }

  lemma EntryMarks(w: World, c: Conn)
    requires w.Valid() && c in w.conns && w.listenFd !in w.mgr.Table()
    ensures Marks(w.mgr.Rows(), c, c.client.sockFd, c.server.sockFd)
  {
    hide Fine, AsMap, Used, Events.RowsOf;
    var m, rows := w.mgr.Table(), w.mgr.Rows();
    forall k | 0 <= k < |rows|
      ensures rows[k].data == Some(c) <==> rows[k].fd >= 0 && !Foreign(c, rows[k].fd)
    {
      if rows[k].fd >= 0 {
        MapAt(rows, k);
        if !Foreign(c, rows[k].fd) {
          OwnEntries(m, c, rows[k].fd);
        }
      }
    }
  }

  /** In a running proxy every reference count fits the table. */
  lemma StartsBalanced(w: World, c: Conn)
    requires w.Valid() && c in w.conns && w.listenFd !in w.mgr.Table()
    ensures Balanced(c, Count(w.mgr.Rows(), c))
  {
    var m, rows := w.mgr.Table(), w.mgr.Rows();
    NoNegative(w.mgr);
    EntryMarks(w, c);
    hide Fine, AsMap, Used, Events.RowsOf;
    RefFits(m, c);
    CountTwo(rows, c, c.client.sockFd, c.server.sockFd);
    if c.client.sockFd >= 0 {
      MapHas(rows, c.client.sockFd);
    }
    if c.server.sockFd >= 0 {
      MapHas(rows, c.server.sockFd);
    }
  }

  ghost predicate AllBalanced(conns: set<Conn>, rows: seq<Slot>)
    reads conns, set c <- conns :: c.client, set c <- conns :: c.server
  {
    forall c <- conns :: Balanced(c, Count(rows, c))
  }

  /** One slot is visited. */
  lemma Visited(conns: set<Conn>, rows: seq<Slot>)
    requires rows != []
    ensures forall c <- conns :: Count(rows, c) == (if rows[0].data == Some(c) then 1 else 0) + Count(rows[1..], c)
  {
  }

  ghost predicate Belong(rows: seq<Slot>, conns: set<Conn>) {
    forall k :: 0 <= k < |rows| && rows[k].data.Some? ==> rows[k].data.value in conns
  }

  /** The slot's connection loses one reference or is freed; it has not been freed before. */
  method Visit(ghost conns: set<Conn>, data: Option<Conn>, ghost rows: seq<Slot>)
    requires rows != [] && rows[0].data == data && Belong(rows, conns) && AllBalanced(conns, rows)
    modifies conns
    ensures AllBalanced(conns, rows[1..])
  {
    if data.Some? {
      ghost var c := data.value;
      assert Balanced(c, Count(rows, c));
      FreeConnection(data.value);
      hide Count;
      Visited(conns, rows);
      forall d | d in conns
        ensures Balanced(d, Count(rows[1..], d))
      {
        assert d != c ==> Balanced(d, Count(rows, d));
      }
    } else {
      hide Count;
      Visited(conns, rows);
      assert forall d <- conns :: Balanced(d, Count(rows, d));
    }
  }

  /**
    `event_teardown` with `free_connection`, after the listener has been taken
    out of the table: no connection is touched after it was freed, and at the
    end all are freed but those with one side closed, whose count is never
    brought down to one before their only slot is visited.
  */
  method Teardown(w: World)
    requires w.Valid() && w.listenFd !in w.mgr.Table()
    modifies w.mgr.pfds, w.mgr.events, w.conns
    ensures forall c <- w.conns :: c.freed <==> !HalfClosed(c)
    ensures forall c <- w.conns :: HalfClosed(c) == old(HalfClosed(c))
    ensures forall k :: 0 <= k < w.mgr.maxIdx ==>
      w.mgr.pfds[k].fd == -1 && w.mgr.events[k] == Events.Event(None, None, -1)
  {
    Before(w);
    hide *;
    ghost var rows := w.mgr.Rows();
    assert rows[0..] == rows;
    ClearSlots(w.mgr, w.conns, rows);
    AllVisited(w.conns, []);
  }

  method ClearSlots(mgr: Manager, ghost conns: set<Conn>, ghost rows: seq<Slot>)
    requires |rows| == mgr.maxIdx <= 512 && mgr.pfds.Length == mgr.events.Length == 513
    requires forall k :: 0 <= k < |rows| ==> mgr.events[k].data == rows[k].data
    requires Belong(rows, conns) && AllBalanced(conns, rows)
    modifies mgr.pfds, mgr.events, conns
    ensures AllBalanced(conns, [])
    ensures forall k :: 0 <= k < mgr.maxIdx ==> mgr.pfds[k].fd == -1 && mgr.events[k] == Events.Event(None, None, -1)
  {
    hide AllBalanced, Belong;
    var idx := 0;
    assert rows[0..] == rows;
    while idx < mgr.maxIdx
      invariant 0 <= idx <= |rows|
      invariant forall k :: idx <= k < |rows| ==> mgr.events[k].data == rows[k].data
      invariant Belong(rows[idx..], conns) && AllBalanced(conns, rows[idx..])
      invariant forall k :: 0 <= k < idx ==> mgr.pfds[k].fd == -1 && mgr.events[k] == Events.Event(None, None, -1)
    {
      Visit(conns, mgr.events[idx].data, rows[idx..]);
      mgr.events[idx], mgr.pfds[idx] := Events.Event(None, None, -1), Events.PollFd(-1, 0, 0);
      NextSlot(rows, idx, conns);
      idx := idx + 1;
    }
    assert rows[|rows|..] == [];
  }

  lemma NextSlot(rows: seq<Slot>, idx: nat, conns: set<Conn>)
    requires idx < |rows| && Belong(rows[idx..], conns)
    ensures rows[idx..][1..] == rows[idx + 1..] && Belong(rows[idx + 1..], conns)
  {
    assert rows[idx..][1..] == rows[idx + 1..];
  }

  lemma AllVisited(conns: set<Conn>, rows: seq<Slot>)
    requires rows == [] && AllBalanced(conns, rows)
    ensures forall c <- conns :: c.freed <==> !HalfClosed(c)
  {
    forall c | c in conns
      ensures Balanced(c, 0)
    {
      assert Balanced(c, Count(rows, c));
    }
  }

  lemma Before(w: World)
    requires w.Valid() && w.listenFd !in w.mgr.Table()
    ensures AllBalanced(w.conns, w.mgr.Rows()) && Belong(w.mgr.Rows(), w.conns)
    ensures w.mgr.maxIdx == |w.mgr.Rows()| <= 512 && w.mgr.pfds.Length == w.mgr.events.Length == 513
    ensures forall k :: 0 <= k < w.mgr.maxIdx ==> w.mgr.events[k].data == w.mgr.Rows()[k].data
  {
    hide Fine, AsMap, Used, Balanced, Housed, Numbered;
    forall c | c in w.conns
      ensures Balanced(c, Count(w.mgr.Rows(), c))
    {
      StartsBalanced(w, c);
    }
    var rows := w.mgr.Rows();
    forall k | 0 <= k < |rows| && rows[k].data.Some?
      ensures rows[k].data.value in w.conns
    {
      MapAt(rows, k);
    }
  }

  /**
    `proxy_run`, from an empty event table to the end: whatever arrives and
    whatever the callbacks meet, no connection is freed twice, and all but the
    half-closed ones are freed.
  */
  method ProxyRun(listenFd: int, encryptIn: bool, encryptOut: bool, bigEndian: bool, wordBits: nat, turns: nat)
    returns (err: int, w: World)
    requires listenFd >= 0 && wordBits >= 32
    ensures forall c <- w.conns :: c.freed <==> !HalfClosed(c)
    ensures err == PROXY_SUCCESS ==> w.mgr.trace.passes == turns
  {
    hide *;
    w := StartUp(listenFd, encryptIn, encryptOut, bigEndian, wordBits);
    err := w.Loop(turns);
    InMemory(w);
    w.StopListening();
    Teardown(w);
  }

  lemma InMemory(w: World)
    requires w.Valid()
    ensures forall c <- w.conns :: c in w.repr
  {
    hide Fine, AsMap, Events.EventManager.Valid;
  }

  /** The listener is registered in an empty table. */
  method StartUp(listenFd: int, encryptIn: bool, encryptOut: bool, bigEndian: bool, wordBits: nat) returns (w: World)
    requires listenFd >= 0 && wordBits >= 32
    ensures w.Valid() && w.conns == {} && w.repr == {} && w.mgr.trace.passes == 0
    ensures fresh(w) && fresh(w.mgr) && fresh(w.mgr.pfds) && fresh(w.mgr.events) && fresh(w.mgr.trace)
    ensures w.mgr.Table() == map[listenFd := Entry(POLLIN, Some(AcceptCb), None)]
  {
    hide Events.KeepsPass, WellFormed, Used, Events.RowsOf;
    var mgr := new Events.EventManager<Callback, Conn>();
    assert mgr.Table() == map[];
    hide AsMap;
    var err := mgr.Add(listenFd, POLLIN, None, Some(AcceptCb));
    w := new World(mgr, listenFd, encryptIn, encryptOut, bigEndian, wordBits);
  }

  // ---------- a connection that is never freed ----------

  /**
    `handle_recv` on a plain side x that has sent one byte and ended: the read of
    the buffer loop has the byte and reports the end.
  */
  method ByteThenEnd(mgr: Manager, c: Conn, x: Net, y: Net, xb: Buf, yb: Buf)
    requires mgr.Valid() && Apart(mgr, x, y) && Established(mgr.Table(), c, x, y, xb, yb)
    requires !x.encrypted && x.sockFd >= 0 && y.sockFd >= 0 && yb.size == 0
    modifies mgr, mgr.pfds, mgr.events, c, x, x.inp, y, yb, yb.data
    ensures mgr.Valid() && Apart(mgr, x, y) && Established(mgr.Table(), c, x, y, xb, yb)
    ensures x.repr == old(x.repr) && y.repr == old(y.repr)
    ensures x.sockFd == -1 && y.sockFd == old(y.sockFd) && old(x.sockFd) !in mgr.Table()
    ensures mgr.Table() - {old(x.sockFd), y.sockFd} == old(mgr.Table()) - {old(x.sockFd), y.sockFd}
  {
    hide Net.Valid, AsMap, Used, Events.KeepsPass, WellFormed, Events.RowsOf, Retries, Linked, Outcome, Established;
    ghost var m, fx, fy := mgr.Table(), x.sockFd, y.sockFd;
    Arrives(c, x, y, xb, yb, m, 7);
    assert mgr.Valid() && mgr.Table() == m && Apart(mgr, x, y);
    hide Apart, Events.EventManager.Valid;
    var err := AfterRead(mgr, c, x, y, xb, yb, PROXY_DISCONNECT);
    AfterEnding(m, mgr.Table(), c, x, y, xb, yb, fx, fy);
  }

  lemma AfterEnding(m: Table, m': Table, c: Conn, x: Net, y: Net, xb: Buf, yb: Buf, fx: int, fy: int)
    requires Outcome(PROXY_SUCCESS, m, m', c, x, y, xb, yb, fx, fy) && Gone(x) && fx >= 0
    ensures Established(m', c, x, y, xb, yb) && y.sockFd == fy && fx !in m' && m' - {fx, fy} == m - {fx, fy}
  {
    hide Sound, Retries, SideOk, MaskFits;
  }

  method Arrives(c: Conn, x: Net, y: Net, xb: Buf, yb: Buf, ghost m: Table, b: u8)
    requires Established(m, c, x, y, xb, yb) && !x.encrypted && x.sockFd >= 0 && yb.size == 0
    modifies x, x.inp, yb, yb.data
    ensures Linked(m, c, x, y, xb, yb) && MaskFits(m, x, xb) && x.Ready() && yb.size == 1 && Ended(x)
    ensures x.repr == old(x.repr) && y.repr == old(y.repr) && x.sockFd == old(x.sockFd) && y.sockFd == old(y.sockFd)
  {
    assert xb != yb;
    hide Net.Valid, Sound, Conn.Sides;
    Deliver(x, y, xb, yb, b);
  }

  /** Reading one byte keeps what holds between the sides and the buffers. */
  method Deliver(x: Net, y: Net, xb: Buf, yb: Buf, b: u8)
    requires Sound(x, y, xb, yb) && Retries(x, xb) && Retries(y, yb) && !x.encrypted && yb.size == 0
    modifies x`got, x.inp, yb`size, yb.data
    ensures Sound(x, y, xb, yb) && Retries(x, xb) && Retries(y, yb) && yb.size == 1 && x.Ready()
    ensures y.Ready() == old(y.Ready()) && Ended(x) && Left(y) == old(Left(y))
  {
    hide Net.Valid, Net.Ready, Net.InFlight;
    assert !y.InFlight() && x.got == y.put;
    hide Carries, Buf.Unsent;
    ReadBeside(x, y, b);
    StoreByte(yb, b);
  }

  method StoreByte(yb: Buf, b: u8)
    requires yb.Valid() && yb.size == 0
    modifies yb`size, yb.data
    ensures yb.Valid() && yb.size == 1 && yb.Unsent() == [b]
  {
    yb.data[0] := b;
    yb.size := 1;
  }

  /** Reading from one side is no concern of the other. */
  method ReadBeside(x: Net, y: Net, b: u8)
    requires x.Valid() && y.Valid() && x.repr !! y.repr && !x.encrypted
    modifies x`got, x.inp
    ensures x.Valid() && y.Valid() && x.Ready() && x.InFlight() == old(x.InFlight())
    ensures y.Ready() == old(y.Ready()) && y.InFlight() == old(y.InFlight())
    ensures x.got == old(x.got) + [b] && Ended(x) && Left(y) == old(Left(y))
  {
    hide Net.Valid, Net.Ready, Net.InFlight;
    NotInside(x, y);
    ObtainByte(x, b);
  }

  lemma NotInside(x: Net, y: Net)
    requires x.Valid() && x.repr !! y.repr
    ensures x !in y.repr && x.inp !in y.repr
  {
  }

  /** One byte arrives on a plain side and is read. */
  method ObtainByte(x: Net, b: u8)
    requires x.Valid() && !x.encrypted
    modifies x`got, x.inp
    ensures x.Valid() && x.repr == old(x.repr) && x.nn == old(x.nn) && x.sockFd == old(x.sockFd)
    ensures x.got == old(x.got) + [b] && x.put == old(x.put) && x.frames == old(x.frames)
    ensures x.Ready() && x.InFlight() == old(x.InFlight()) && Ended(x)
  {
    var had := x.inp.sent[..x.inp.taken];
    x.inp.sent := had + [b];
    x.inp.taken := x.inp.taken + 1;
    x.inp.recvs := x.inp.recvs + [Moved(1), Closed];
    x.got := x.got + [b];
    assert x.inp.sent[..x.inp.taken] == had + [b];
  }

  /**
    Half-closed connections come about, and they outlive the proxy: the only slot
    finds a count of two, so the count goes down and nothing is freed. Here the
    client of the only connection of a plain proxy sends a byte and ends.
  */
  method HalfClosedIsNeverFreed(w: World) returns (c: Conn)
    requires w.Valid() && w.conns == {} && w.listenFd == 0 && !w.encryptIn && |w.mgr.Table()| <= 1
    modifies w, w.repr, w.mgr, w.mgr.pfds, w.mgr.events
    ensures c in w.conns && HalfClosed(c) && !c.freed
  {
    hide Foot, Running, Net.Valid, World.Valid;
    c := OneConnection(w);
    Inside(c);
    HalfClose(w, c);
    hide *;
    w.StopListening();
    Teardown(w);
  }

  lemma Inside(c: Conn)
    requires c.client.Valid() && c.server.Valid()
    ensures {c, c.client, c.client.inp, c.server, c.toServer, c.toServer.data} <= Foot(c)
  {
  }

  /** The one connection of a proxy loses its client while the server still has a byte to come. */
  method HalfClose(w: World, c: Conn)
    requires w.Valid() && w.conns == {c} && Running(w.mgr.Table(), c)
    requires c.client.sockFd >= 0 && c.server.sockFd >= 0 && !c.client.encrypted && c.toServer.size == 0
    modifies w`repr, w.mgr, w.mgr.pfds, w.mgr.events
    modifies c, c.client, c.client.inp, c.server, c.toServer, c.toServer.data
    ensures w.Valid() && w.conns == {c} && HalfClosed(c)
  {
    hide Net.Valid, AsMap, Used, WellFormed, Events.RowsOf, Running, Fine, Numbered, KnownBut;
    LoseClient(w.mgr, c, w.listenFd, w.repr, w);
    assert w.conns - {c} == {};
    w.Settle(c);
  }

  method LoseClient(mgr: Manager, c: Conn, ghost listenFd: int, ghost repr: set<object>, ghost w: World)
    requires mgr == w.mgr && listenFd == w.listenFd && repr == w.repr
    requires w.Valid() && w.conns == {c} && Running(mgr.Table(), c)
    requires c.client.sockFd >= 0 && c.server.sockFd >= 0 && !c.client.encrypted && c.toServer.size == 0
    modifies mgr, mgr.pfds, mgr.events, c, c.client, c.client.inp, c.server, c.toServer, c.toServer.data
    ensures mgr.Valid() && Apart(mgr, c.client, c.server)
    ensures c.client.repr == old(c.client.repr) && c.server.repr == old(c.server.repr)
    ensures HalfClosed(c) && Foreign(c, listenFd)
    ensures Housed({}, repr) && Numbered({}, repr, listenFd) && Fine(mgr.Table(), c)
    ensures KnownBut(mgr.Table(), listenFd, {}, repr, c)
  {
    ghost var m, fx, fy := mgr.Table(), c.client.sockFd, c.server.sockFd;
    hide World.Valid, Net.Valid, AsMap, Used, WellFormed, Events.RowsOf, Established, Apart, Housed, Numbered;
    hide Fine, KnownBut;
    OnlyOwn(w, c);
    ByteThenEnd(mgr, c, c.client, c.server, c.toClient, c.toServer);
    NotNegative(mgr);
    assert Running(mgr.Table(), c);
    hide Running;
    NoneOfOthers(mgr.Table(), c, listenFd, repr, m, fx, fy);
  }

  lemma OnlyOwn(w: World, c: Conn)
    requires w.Valid() && w.conns == {c}
    ensures w.mgr.Valid() && Apart(w.mgr, c.client, c.server) && Foreign(c, w.listenFd)
    ensures forall fd <- w.mgr.Table() ::
      || (fd == w.listenFd && w.mgr.Table()[fd].callback == Some(AcceptCb) && w.mgr.Table()[fd].data == None)
      || fd == c.client.sockFd || fd == c.server.sockFd
  {
    hide Fine, AsMap, Events.EventManager.Valid;
  }

  lemma NoneOfOthers(m': Table, c: Conn, listenFd: int, repr: set<object>, m: Table, fx: int, fy: int)
    requires Running(m', c) && m' - {fx, fy} == m - {fx, fy} && listenFd != fx && listenFd != fy
    requires forall fd <- m' :: fd >= 0
    requires forall fd <- m ::
      || (fd == listenFd && m[fd].callback == Some(AcceptCb) && m[fd].data == None) || fd == fx || fd == fy
    requires c.client.sockFd == -1 && c.server.sockFd == fy >= 0 && fx !in m'
    ensures Housed({}, repr) && Numbered({}, repr, listenFd) && Fine(m', c)
    ensures KnownBut(m', listenFd, {}, repr, c)
  {
    assert Fine(m', c) by {
      hide Sound, Retries, SideOk, MaskFits;
    }
    hide Fine, Running;
    forall fd | fd in m'
      ensures fd == listenFd ==> m'[fd].callback == Some(AcceptCb) && m'[fd].data == None
      ensures fd != listenFd ==> fd == fy && m'[fd].data == Some(c)
    {
      if fd != fx && fd != fy {
        MinusAt(m, m', fx, fy, fd);
      } else {
        OwnEntries(m', c, fd);
      }
    }
  }

  method OneConnection(w: World) returns (c: Conn)
    requires w.Valid() && w.conns == {} && w.listenFd == 0 && !w.encryptIn && |w.mgr.Table()| <= 1
    modifies w, w.mgr, w.mgr.pfds, w.mgr.events
    ensures w.Valid() && w.conns == {c} && Running(w.mgr.Table(), c) && fresh(Foot(c))
    ensures c.client.Valid() && c.server.Valid()
    ensures c.client.sockFd == 1 && c.server.sockFd == 2 && !c.client.encrypted && c.toServer.size == 0
  {
    hide Net.Valid, AsMap, Used, WellFormed, Events.RowsOf, Fine, Events.EventManager.Valid;
    hide World.Known, World.InOrder, Numbered, Housed;
    c := w.NewConn(1, 2);
    assert c.toServer.size == 0 && c.client.Valid() && c.server.Valid();
    hide Untouched, Running;
    var err := w.Enlist(c, false);
  }
}
