/** proxy.c and event.c together: all connections of a running proxy, and its end. */
module Server {
  import opened Errors
  import opened Bits
  import opened Wires
  import opened Bufs
  import opened EventRows
  import opened Proxy
  import opened Handshakes
  import opened Lifecycle
  import Events

  /** The descriptor is neither side's. */
  predicate Foreign(c: Conn, fd: int)
    reads c.client, c.server
  {
    c.client.sockFd != fd && c.server.sockFd != fd
  }

  /** What one connection asks of the table: the entries under its own descriptors. */
  ghost predicate SameFor(m: Table, m': Table, fd: int) {
    fd >= 0 ==> (fd in m <==> fd in m') && (fd in m ==> m'[fd] == m[fd])
  }

  /** A connection is in order by the table m, or it is closed and freed and its history adds up. */
  ghost predicate Fine(m: Table, c: Conn)
    reads c, c.client, c.server, c.client.repr, c.server.repr, c.toClient, c.toServer, c.toClient.data, c.toServer.data
  {
    if c.freed then Finished(c, c.client, c.server, c.toClient, c.toServer) else ConnOk(m, c)
  }

  /** A change elsewhere in the table is no concern of a connection. */
  lemma FineElsewhere(m: Table, m': Table, c: Conn)
    requires Fine(m, c) && SameFor(m, m', c.client.sockFd) && SameFor(m, m', c.server.sockFd)
    requires -1 !in m && -1 !in m'
    ensures Fine(m', c)
  {
    hide Net.Valid, Retries, Conserved, Separate;
  }

  /** Its entries carry the connection itself, and it has not been freed. */
  lemma OwnEntries(m: Table, c: Conn, fd: int)
    requires Fine(m, c) && fd in m && fd >= 0 && !Foreign(c, fd)
    ensures m[fd].data == Some(c) && !c.freed
  {
    hide Net.Valid, Retries, Conserved, Separate;
  }

  lemma FineFacts(m: Table, c: Conn)
    requires Fine(m, c)
    ensures c.client in c.client.repr && c.server in c.server.repr
    ensures c.client.sockFd >= -1 && c.server.sockFd >= -1
  {
    hide Net.Valid, Retries, Conserved;
  }

  /** A callback leaves its connection fine, with each descriptor kept or given up. */
  lemma AfterFine(m: Table, m': Table, c: Conn, fx: int, fy: int)
    requires After(m, m', c, fx, fy)
    ensures Fine(m', c) && Still(m', c.client, fx) && Still(m', c.server, fy)
    ensures m' - {fx, fy} == m - {fx, fy}
  {
    hide ConnOk, Sound, Delivered;
  }

  lemma OwnBefore(m: Table, c: Conn)
    requires Fine(m, c) && forall fd <- m :: fd >= 0
    ensures forall fd :: fd in m && !Foreign(c, fd) ==> m[fd].data == Some(c)
  {
    hide Fine;
    forall fd | fd in m && !Foreign(c, fd)
      ensures m[fd].data == Some(c)
    {
      OwnEntries(m, c, fd);
    }
  }

  lemma OwnAfter(m: Table, m': Table, c: Conn, fx: int, fy: int)
    requires After(m, m', c, fx, fy) && forall fd <- m' :: fd >= 0
    ensures forall fd :: fd in m' && (fd == fx || fd == fy) ==> m'[fd].data == Some(c)
  {
    hide After, Fine;
    AfterFine(m, m', c, fx, fy);
    OwnBefore(m', c);
  }

  lemma NotNegative(mgr: Manager)
    requires mgr.Valid()
    ensures forall fd <- mgr.Table() :: fd >= 0
  {
    forall fd | fd in mgr.Table()
      ensures fd >= 0
    {
      if fd < 0 {
        MapKeys(mgr.Rows(), fd);
      }
    }
  }

  lemma MinusAt(m: Table, m': Table, a: int, b: int, fd: int)
    requires m' - {a, b} == m - {a, b} && fd != a && fd != b
    ensures SameFor(m, m', fd)
  {
    assert fd in m' - {a, b} <==> fd in m - {a, b};
    assert fd in m' && fd in m ==> (m' - {a, b})[fd] == (m - {a, b})[fd];
  }

  /** The bytes obtained from each side and taken by it. */
  datatype History = History(clientGot: seq<u8>, clientPut: seq<u8>, serverGot: seq<u8>, serverPut: seq<u8>)

  /** The entry under fd belongs to a connection in s. */
  ghost predicate OwnedBy(m: Table, fd: int, s: set<Conn>) {
    fd in m && m[fd].data.Some? && m[fd].data.value in s
  }

  /** All other entries are the same, and there are no new ones. */
  ghost predicate SameOthers(s: set<Conn>, m: Table, m': Table) {
    && (forall fd :: fd in m && !OwnedBy(m, fd, s) ==> fd in m' && m'[fd] == m[fd])
    && (forall fd :: fd in m' && !OwnedBy(m', fd, s) ==> fd in m && m[fd] == m'[fd])
  }

  lemma SameAsEver(m: Table)
    ensures SameOthers({}, m, m)
  {
  }

  /** Only the two entries of one connection have changed. */
  lemma OnlyOwnChanged(m: Table, m': Table, c: Conn, a: int, b: int)
    requires m' - {a, b} == m - {a, b}
    requires forall fd :: fd in m && (fd == a || fd == b) ==> m[fd].data == Some(c)
    requires forall fd :: fd in m' && (fd == a || fd == b) ==> m'[fd].data == Some(c)
    ensures SameOthers({c}, m, m')
  {
    forall fd | fd != a && fd != b
      ensures fd in m <==> fd in m'
      ensures fd in m ==> m'[fd] == m[fd]
    {
      assert fd in m' - {a, b} <==> fd in m - {a, b};
      assert fd in m ==> (m' - {a, b})[fd] == (m - {a, b})[fd];
    }
  }

  /** What can be seen of a connection from outside. */
  datatype View = View(
    freed: bool, clientFd: int, serverFd: int, clientRepr: set<object>, serverRepr: set<object>, history: History)

  ghost function ViewOf(c: Conn): (r: View)
    reads c, c.client, c.server
  {
    View(c.freed, c.client.sockFd, c.server.sockFd, c.client.repr, c.server.repr,
         History(c.client.got, c.client.put, c.server.got, c.server.put))
  }

  ghost predicate SeenAs(m: Table, c: Conn, v: View)
    reads c, c.client, c.server, c.client.repr, c.server.repr, c.toClient, c.toServer, c.toClient.data, c.toServer.data
  {
    Fine(m, c) && ViewOf(c) == v
  }

  lemma StaysFine(m: Table, m': Table, c: Conn, v: View, a: int, b: int)
    requires SeenAs(m, c, v) && m' - {a, b} == m - {a, b} && -1 !in m && -1 !in m'
    requires v.clientFd >= 0 ==> v.clientFd != a && v.clientFd != b
    requires v.serverFd >= 0 ==> v.serverFd != a && v.serverFd != b
    ensures Fine(m', c) && ViewOf(c) == v
  {
    hide Fine;
    if v.clientFd >= 0 {
      MinusAt(m, m', a, b, v.clientFd);
    }
    if v.serverFd >= 0 {
      MinusAt(m, m', a, b, v.serverFd);
    }
    FineElsewhere(m, m', c);
  }

  /** Every connection has memory of its own. */
  ghost predicate Housed(conns: set<Conn>, repr: set<object>)
    reads repr
  {
    && (forall c <- conns :: c in repr && c.client in repr && c.server in repr && Foot(c) <= repr)
    && (forall c <- conns :: c.client in c.client.repr && c.server in c.server.repr)
    && (forall c <- conns, d <- conns :: c != d ==> Foot(c) !! Foot(d))
  }

  /** Open descriptors are distinct, as the operating system hands them out. */
  ghost predicate Numbered(conns: set<Conn>, repr: set<object>, listenFd: int)
    requires Housed(conns, repr)
    reads repr
  {
    && (forall c <- conns :: Foreign(c, listenFd) && c.client.sockFd >= -1 && c.server.sockFd >= -1)
    && (forall c <- conns, d <- conns :: c != d ==> NoShared(c, d))
  }

  ghost predicate NoShared(c: Conn, d: Conn)
    reads c.client, c.server, d.client, d.server
  {
    (c.client.sockFd >= 0 ==> Foreign(d, c.client.sockFd)) && (c.server.sockFd >= 0 ==> Foreign(d, c.server.sockFd))
  }

  lemma HousedAdd(conns: set<Conn>, repr: set<object>, listenFd: int, c: Conn)
    requires Housed(conns, repr) && Numbered(conns, repr, listenFd) && c !in conns
    requires c.client in c.client.repr && c.server in c.server.repr
    requires forall d <- conns :: Foot(c) !! Foot(d) && NoShared(c, d) && NoShared(d, c)
    requires Foreign(c, listenFd) && c.client.sockFd >= -1 && c.server.sockFd >= -1
    ensures Housed(conns + {c}, repr + Foot(c)) && Numbered(conns + {c}, repr + Foot(c), listenFd)
  {
    hide NoShared;
  }

  lemma NewcomerApart(conns: set<Conn>, repr: set<object>, c: Conn)
    requires Housed(conns, repr) && Foot(c) !! repr
    requires forall d <- conns :: Foreign(d, c.client.sockFd) && Foreign(d, c.server.sockFd)
    ensures forall d <- conns :: Foot(c) !! Foot(d) && NoShared(c, d) && NoShared(d, c)
  {
  }

  /** Every entry is the listener's, or of c, or of one of the others. */
  ghost predicate KnownBut(m: Table, listenFd: int, others: set<Conn>, repr: set<object>, c: Conn)
    requires Housed(others, repr)
    reads repr, c.client, c.server
  {
    forall fd <- m ::
      if fd == listenFd then m[fd].callback == Some(AcceptCb) && m[fd].data == None
      else
        && m[fd].data.Some?
        && ((m[fd].data.value == c && !Foreign(c, fd))
            || (m[fd].data.value in others && !Foreign(m[fd].data.value, fd)))
  }

  lemma NothingMoved(c: Conn)
    requires !c.freed && c.ending == Cut && c !in c.client.repr && c !in c.server.repr
    requires Separate(c.client, c.server, c.toClient, c.toServer) && c.client.Valid() && c.server.Valid()
    requires c.toClient.Valid() && c.toServer.Valid() && c.toClient.size == 0 && c.toServer.size == 0
    requires c.client.got == [] && c.client.put == [] && c.server.got == [] && c.server.put == []
    requires c.client.sockFd >= 0 && c.server.sockFd >= 0 && c.client.sockFd != c.server.sockFd
    requires !c.client.InFlight() && !c.server.InFlight()
    ensures Untouched(c)
  {
    hide Net.Valid, Net.InFlight, Separate;
  }

  /** What `accept`, and connecting to the server, come to. */
  datatype Incoming = NoClient | Blocking(cfd: int) | NoServer(cfd: int) | Came(cfd: int, sfd: int, inProgress: bool)

  /** Failures that end the loop. */
  predicate Fatal(o: Incoming) {
    o.NoClient? || o.Blocking?
  }

  predicate Arrives(rev: Revents, o: Incoming) {
    !rev.trouble && !rev.nval && !rev.pollout && rev.pollin && o.Came?
  }

  /** The table can take a new connection: one entry while its server is being connected to, or both. */
  ghost predicate Room(m: Table, inProgress: bool) {
    |m| + (if inProgress then 1 else 2) <= Events.MAX_EVENTS
  }

  class World {
    const mgr: Manager
    const listenFd: int
    const encryptIn: bool
    const encryptOut: bool
    const bigEndian: bool
    const wordBits: nat
    /** The connections that have been registered; those that are over are marked as freed. */
    var conns: set<Conn>
    ghost var repr: set<object>

    constructor (mgr: Manager, listenFd: int, encryptIn: bool, encryptOut: bool, bigEndian: bool, wordBits: nat)
      requires mgr.Valid() && listenFd >= 0 && wordBits >= 32
      requires mgr.Table() == map[listenFd := Entry(POLLIN, Some(AcceptCb), None)]
      ensures Valid() && this.mgr == mgr && this.listenFd == listenFd && conns == {} && repr == {}
      ensures this.encryptIn == encryptIn && this.encryptOut == encryptOut && this.wordBits == wordBits
    {
      this.mgr, this.listenFd, this.encryptIn, this.encryptOut := mgr, listenFd, encryptIn, encryptOut;
      this.bigEndian, this.wordBits := bigEndian, wordBits;
      conns, repr := {}, {};
    }

    /** Every entry is the listener's or belongs to a connection that still has the descriptor. */
    ghost predicate Known(m: Table)
      requires Housed(conns, repr)
      reads this, repr
    {
      forall fd <- m ::
        if fd == listenFd then m[fd].callback == Some(AcceptCb) && m[fd].data == None
        else m[fd].data.Some? && m[fd].data.value in conns && !Foreign(m[fd].data.value, fd)
    }

    ghost predicate InOrder(m: Table)
      requires Housed(conns, repr)
      reads this, repr
    {
      forall c <- conns :: Fine(m, c)
    }

    ghost predicate Valid()
      reads this, repr, mgr, mgr.pfds, mgr.events
    {
      && this !in repr && mgr !in repr && mgr.pfds !in repr && mgr.events !in repr && mgr.trace !in repr
      && mgr.Valid() && listenFd >= 0 && wordBits >= 32
      && Housed(conns, repr) && Numbered(conns, repr, listenFd) && Known(mgr.Table()) && InOrder(mgr.Table())
    }

    lemma AllFine(c: Conn)
      requires Valid() && c in conns && !c.freed
      ensures ConnOk(mgr.Table(), c) && forall d <- conns - {c} :: SeenAs(mgr.Table(), d, ViewOf(d))
    {
      hide ConnOk, ViewOf, AsMap, Used, WellFormed, Events.RowsOf, Housed, Numbered, Finished;
      assert Fine(mgr.Table(), c);
    }

    /** A callback of c does not touch the others. */
    method Untouching(c: Conn, fd: int, rev: Revents, cb: Callback) returns (err: int)
      requires Valid() && c in conns && !c.freed && Listed(mgr.Table(), c, fd, cb)
      requires rev.pollout ==> WantsOut(mgr.Table()[fd].mask)
      modifies Foot(c), mgr, mgr.pfds, mgr.events, mgr.trace
      ensures mgr.Valid() && Apart(mgr, c.client, c.server)
      ensures After(old(mgr.Table()), mgr.Table(), c, old(c.client.sockFd), old(c.server.sockFd))
      ensures Foot(c) !! repr - old(Foot(c)) && (forall o <- Foot(c) :: o in old(Foot(c)) || fresh(o))
      ensures forall d <- conns - {c} :: SeenAs(old(mgr.Table()), d, old(ViewOf(d)))
      ensures Events.KeepsPass(old(mgr.Rows()), old(mgr.log), mgr.Rows(), mgr.log)
      ensures mgr.trace.calls == old(mgr.trace.calls) + [Events.Called(fd, rev, Some(cb), Some(c))]
    {
      hide ConnOk, SeenAs, AsMap, Used, Events.KeepsPass, WellFormed, Events.RowsOf, After, Finished;
      hide ViewOf, Numbered, InOrder, Known, Fine;
      NotNegative(mgr);
      AllFine(c);
      err := Fire(mgr, c, fd, rev, cb);
    }

    lemma Surrounded(c: Conn)
      requires Valid() && c in conns
      ensures Foot(c) <= repr && forall d <- conns - {c} :: NoShared(c, d) && NoShared(d, c)
    {
      hide Foot, NoShared, AsMap, Events.EventManager.Valid, InOrder, Known;
    }

    /** One callback of connection c: no other connection notices. */
    method Isolated(c: Conn, fd: int, rev: Revents, cb: Callback) returns (err: int)
      requires Valid() && c in conns && !c.freed && Listed(mgr.Table(), c, fd, cb)
      requires rev.pollout ==> WantsOut(mgr.Table()[fd].mask)
      modifies repr, mgr, mgr.pfds, mgr.events, mgr.trace
      ensures mgr.Valid() && Apart(mgr, c.client, c.server)
      ensures After(old(mgr.Table()), mgr.Table(), c, old(c.client.sockFd), old(c.server.sockFd))
      ensures Foot(c) !! repr - old(Foot(c)) && (forall o <- Foot(c) :: o in old(Foot(c)) || fresh(o))
      ensures forall d <- conns - {c} :: Fine(mgr.Table(), d) && ViewOf(d) == old(ViewOf(d))
      ensures Events.KeepsPass(old(mgr.Rows()), old(mgr.log), mgr.Rows(), mgr.log)
      ensures mgr.trace.calls == old(mgr.trace.calls) + [Events.Called(fd, rev, Some(cb), Some(c))]
    {
      hide Fine, AsMap, Used, Events.KeepsPass, WellFormed, Events.RowsOf, After, Foot, Housed;
      hide Numbered, InOrder, Known;
      NoNegative(mgr);
      ghost var m, fx, fy := mgr.Table(), c.client.sockFd, c.server.sockFd;
      Surrounded(c);
      err := Untouching(c, fd, rev, cb);
      ghost var m' := mgr.Table();
      AfterFine(m, m', c, fx, fy);
      NoNegative(mgr);
      forall d | d in conns - {c}
        ensures Fine(m', d) && ViewOf(d) == old(ViewOf(d))
      {
        StaysFine(m, m', d, old(ViewOf(d)), fx, fy);
      }
    }

    /** The other connections are to each other what they were. */
    method Neighbours(c: Conn, fd: int, rev: Revents, cb: Callback) returns (err: int)
      requires Valid() && c in conns && !c.freed && Listed(mgr.Table(), c, fd, cb)
      requires rev.pollout ==> WantsOut(mgr.Table()[fd].mask)
      modifies repr, mgr, mgr.pfds, mgr.events, mgr.trace
      ensures mgr.Valid() && Apart(mgr, c.client, c.server)
      ensures After(old(mgr.Table()), mgr.Table(), c, old(c.client.sockFd), old(c.server.sockFd))
      ensures forall o <- Foot(c) :: o in old(Foot(c)) || fresh(o)
      ensures Housed(conns - {c}, repr) && Numbered(conns - {c}, repr, listenFd)
      ensures forall d <- conns - {c} :: Fine(mgr.Table(), d) && Foot(c) !! Foot(d)
      ensures forall d <- conns - {c} :: ViewOf(d) == old(ViewOf(d))
      ensures Events.KeepsPass(old(mgr.Rows()), old(mgr.log), mgr.Rows(), mgr.log)
      ensures mgr.trace.calls == old(mgr.trace.calls) + [Events.Called(fd, rev, Some(cb), Some(c))]
    {
      hide After, Apart, AsMap, Used, Events.KeepsPass, WellFormed, Events.RowsOf, Fine, Listed;
      hide Events.EventManager.Valid;
      err := Isolated(c, fd, rev, cb);
      assert Housed(conns - {c}, repr);
      assert forall d <- conns - {c} :: Foot(d) <= repr - old(Foot(c));
      hide Housed, Foot;
      forall d, e | d in conns - {c} && e in conns - {c} && d != e
        ensures NoShared(d, e)
      {
        assert old(NoShared(d, e));
      }
    }

    /** Only the entries of c have changed. */
    method Tabled(c: Conn, fd: int, rev: Revents, cb: Callback) returns (err: int)
      requires Valid() && c in conns && !c.freed && Listed(mgr.Table(), c, fd, cb)
      requires rev.pollout ==> WantsOut(mgr.Table()[fd].mask)
      modifies repr, mgr, mgr.pfds, mgr.events, mgr.trace
      ensures mgr.Valid() && Apart(mgr, c.client, c.server)
      ensures After(old(mgr.Table()), mgr.Table(), c, old(c.client.sockFd), old(c.server.sockFd))
      ensures forall o <- Foot(c) :: o in old(Foot(c)) || fresh(o)
      ensures Housed(conns - {c}, repr) && Numbered(conns - {c}, repr, listenFd)
      ensures forall d <- conns - {c} :: Fine(mgr.Table(), d) && Foot(c) !! Foot(d)
      ensures forall d <- conns - {c} :: ViewOf(d) == old(ViewOf(d))
      ensures SameOthers({c}, old(mgr.Table()), mgr.Table())
      ensures Events.KeepsPass(old(mgr.Rows()), old(mgr.log), mgr.Rows(), mgr.log)
      ensures mgr.trace.calls == old(mgr.trace.calls) + [Events.Called(fd, rev, Some(cb), Some(c))]
    {
      hide Fine, AsMap, Used, Events.KeepsPass, WellFormed, Events.RowsOf, After, Foot, Housed, Numbered, Known;
      ghost var m, fx, fy := mgr.Table(), c.client.sockFd, c.server.sockFd;
      NotNegative(mgr);
      OwnBefore(m, c);
      err := Neighbours(c, fd, rev, cb);
      ghost var m' := mgr.Table();
      NotNegative(mgr);
      AfterFine(m, m', c, fx, fy);
      OwnAfter(m, m', c, fx, fy);
      OnlyOwnChanged(m, m', c, fx, fy);
    }

    /** The entries of the table still belong to whom they belonged. */
    method Assessed(c: Conn, fd: int, rev: Revents, cb: Callback) returns (err: int)
      requires Valid() && c in conns && !c.freed && Listed(mgr.Table(), c, fd, cb)
      requires rev.pollout ==> WantsOut(mgr.Table()[fd].mask)
      modifies repr, mgr, mgr.pfds, mgr.events, mgr.trace
      ensures mgr.Valid() && Apart(mgr, c.client, c.server)
      ensures forall o <- Foot(c) :: o in old(Foot(c)) || fresh(o)
      ensures Housed(conns - {c}, repr) && Numbered(conns - {c}, repr, listenFd)
      ensures forall d <- conns - {c} :: Fine(mgr.Table(), d) && Foot(c) !! Foot(d)
      ensures Fine(mgr.Table(), c) && Foreign(c, listenFd)
      ensures forall d <- conns - {c} :: NoShared(c, d) && NoShared(d, c)
      ensures KnownBut(mgr.Table(), listenFd, conns - {c}, repr, c)
      ensures forall d <- conns - {c} :: ViewOf(d) == old(ViewOf(d))
      ensures SameOthers({c}, old(mgr.Table()), mgr.Table())
      ensures Events.KeepsPass(old(mgr.Rows()), old(mgr.log), mgr.Rows(), mgr.log)
      ensures mgr.trace.calls == old(mgr.trace.calls) + [Events.Called(fd, rev, Some(cb), Some(c))]
    {
      hide Fine, AsMap, Used, Events.KeepsPass, WellFormed, Events.RowsOf, After, Foot, SameOthers;
      ghost var m, fx, fy := mgr.Table(), c.client.sockFd, c.server.sockFd;
      err := Tabled(c, fd, rev, cb);
      ghost var m' := mgr.Table();
      AfterFine(m, m', c, fx, fy);
      NotNegative(mgr);
      forall d | d in conns - {c}
        ensures NoShared(c, d) && NoShared(d, c)
      {
        assert old(NoShared(c, d) && NoShared(d, c));
      }
      forall fd | fd in m'
        ensures fd == listenFd ==> m'[fd].callback == Some(AcceptCb) && m'[fd].data == None
        ensures fd != listenFd ==>
          m'[fd].data.Some? && m'[fd].data.value in conns && !Foreign(m'[fd].data.value, fd)
      {
        if fd != fx && fd != fy {
          MinusAt(m, m', fx, fy, fd);
          assert fd != listenFd ==> m[fd].data.value in conns - {c};
        } else {
          OwnEntries(m', c, fd);
        }
      }
    }

    /** One callback of connection c: c stays in order, or is closed, freed and never touched again. */
    method Dispatch(c: Conn, fd: int, rev: Revents, cb: Callback) returns (err: int)
      requires Valid() && c in conns && !c.freed && Listed(mgr.Table(), c, fd, cb)
      requires rev.pollout ==> WantsOut(mgr.Table()[fd].mask)
      modifies this`repr, repr, mgr, mgr.pfds, mgr.events, mgr.trace
      ensures Valid() && (forall o <- repr :: o in old(repr) || fresh(o))
      ensures forall d <- conns - {c} :: ViewOf(d) == old(ViewOf(d))
      ensures SameOthers({c}, old(mgr.Table()), mgr.Table())
      ensures Events.KeepsPass(old(mgr.Rows()), old(mgr.log), mgr.Rows(), mgr.log)
      ensures mgr.trace.calls == old(mgr.trace.calls) + [Events.Called(fd, rev, Some(cb), Some(c))]
    {
      hide Fine, AsMap, Used, Events.KeepsPass, WellFormed, Events.RowsOf, NoShared, Foreign, Numbered, KnownBut, Known;
      assert c in repr && Foot(c) <= repr;
      err := Assessed(c, fd, rev, cb);
      Settle(c);
      assert forall o <- Foot(c) :: o in old(repr) || fresh(o);
    }

    /** The books after a callback of c. */
    method Settle(c: Conn)
      requires this !in repr && mgr !in repr && mgr.pfds !in repr && mgr.events !in repr
      requires mgr.trace !in repr && this !in Foot(c)
      requires mgr.Valid() && listenFd >= 0 && wordBits >= 32 && Apart(mgr, c.client, c.server) && c in conns
      requires Housed(conns - {c}, repr) && Numbered(conns - {c}, repr, listenFd)
      requires forall d <- conns - {c} :: Fine(mgr.Table(), d) && Foot(c) !! Foot(d)
      requires Fine(mgr.Table(), c) && Foreign(c, listenFd)
      requires forall d <- conns - {c} :: NoShared(c, d) && NoShared(d, c)
      requires KnownBut(mgr.Table(), listenFd, conns - {c}, repr, c)
      modifies this`repr
      ensures Valid() && repr == old(repr) + Foot(c)
    {
      hide Fine, AsMap, Used, WellFormed, Events.RowsOf, NoShared;
      FineFacts(mgr.Table(), c);
      HousedAdd(conns - {c}, repr, listenFd, c);
      assert conns - {c} + {c} == conns;
      repr := repr + Foot(c);
    }

    /** No open socket has this number. */
    predicate Unused(fd: int)
      requires Housed(conns, repr)
      reads this, repr
    {
      fd >= 0 && fd != listenFd && forall c <- conns :: Foreign(c, fd)
    }

    /** A connection with two new sockets; what its peers will send is up to them. */
    method NewConn(cfd: int, sfd: int) returns (c: Conn)
      requires cfd >= 0 && sfd >= 0 && cfd != sfd && wordBits >= 32
      ensures Untouched(c) && c.ref == 0 && c.client.sockFd == cfd && c.server.sockFd == sfd
      ensures fresh(Foot(c)) && c.client.encrypted == encryptIn && c.server.encrypted == encryptOut
    {
      hide Net.Valid, Net.InFlight, Separate, Untouched, Sound, Conserved;
      var x := NewSide(cfd, encryptIn);
      var y := NewSide(sfd, encryptOut);
      assert x.Valid() && x.repr !! y.repr && !x.InFlight();
      c := new Conn(x, y);
      assert x.Valid() && y.Valid();
      NothingMoved(c);
    }

    method NewSide(fd: int, encrypted: bool) returns (net: Net)
      requires fd >= 0 && wordBits >= 32
      ensures net.Valid() && fresh(net.repr) && net in net.repr && !net.InFlight()
      ensures net.sockFd == fd && net.encrypted == encrypted && net.got == [] && net.put == []
    {
      var inp := new Wire();
      var out := new Wire();
      var stream: seq<u8> := *;
      inp.sent := stream;
      net := new Net(fd, encrypted, inp, out, bigEndian, wordBits);
    }

    /** A new connection is registered with the others, or freed again if the table is full. */
    method Enlist(c: Conn, inProgress: bool) returns (err: int)
      requires Valid() && Untouched(c) && c.ref == 0 && Foot(c) !! repr
      requires this !in Foot(c) && mgr !in Foot(c) && mgr.pfds !in Foot(c) && mgr.events !in Foot(c)
      requires mgr.trace !in Foot(c)
      requires Unused(c.client.sockFd) && Unused(c.server.sockFd)
      modifies this, c, mgr, mgr.pfds, mgr.events
      ensures Valid() && repr <= old(repr) + Foot(c)
      ensures err == PROXY_SUCCESS || err == PROXY_MAX_EVENTS
      ensures c.freed <==> err != PROXY_SUCCESS
      ensures conns == if err == PROXY_SUCCESS then old(conns) + {c} else old(conns)
      ensures err == PROXY_SUCCESS <==> Room(old(mgr.Table()), inProgress)
      ensures mgr.Table() == if err == PROXY_SUCCESS then Entered(old(mgr.Table()), c, inProgress) else old(mgr.Table())
      ensures err == PROXY_SUCCESS && !inProgress ==> Running(mgr.Table(), c)
      ensures SameOthers(if err == PROXY_SUCCESS then {c} else {}, old(mgr.Table()), mgr.Table())
      ensures Events.KeepsPass(old(mgr.Rows()), old(mgr.log), mgr.Rows(), mgr.log)
    {
      hide Fine, Running, AsMap, Used, Events.KeepsPass, WellFormed, Events.RowsOf, Untouched, NoShared;
      hide KnownBut, Known, Apart, SameOthers;
      assert c !in conns;
      err := Introduce(c, inProgress);
      if err == PROXY_SUCCESS {
        hide Events.EventManager.Valid, InOrder, Numbered;
        Welcome(c);
      }
    }

    /** A connection that is registered becomes one of those of the world. */
    method Welcome(c: Conn)
      requires this !in repr && mgr !in repr && mgr.pfds !in repr && mgr.events !in repr && mgr.trace !in repr
      requires mgr.Valid() && listenFd >= 0 && wordBits >= 32 && Apart(mgr, c.client, c.server)
      requires c !in conns && Foot(c) !! repr && this !in Foot(c)
      requires Housed(conns, repr) && Numbered(conns, repr, listenFd) && InOrder(mgr.Table())
      requires Unused(c.client.sockFd) && Unused(c.server.sockFd)
      requires Fine(mgr.Table(), c) && KnownBut(mgr.Table(), listenFd, conns, repr, c)
      modifies this
      ensures Valid() && conns == old(conns) + {c} && repr == old(repr) + Foot(c)
    {
      hide Fine, AsMap, Used, WellFormed, Events.RowsOf, NoShared, KnownBut, Known, Apart, Events.EventManager.Valid;
      NewcomerApart(conns, repr, c);
      conns := conns + {c};
      assert conns - {c} == old(conns);
      Settle(c);
    }

    method Introduce(c: Conn, inProgress: bool) returns (err: int)
      requires Valid() && Untouched(c) && c.ref == 0 && Foot(c) !! repr
      requires this !in Foot(c) && mgr !in Foot(c) && mgr.pfds !in Foot(c) && mgr.events !in Foot(c)
      requires mgr.trace !in Foot(c)
      requires Unused(c.client.sockFd) && Unused(c.server.sockFd)
      modifies c, mgr, mgr.pfds, mgr.events
      ensures mgr.Valid() && Apart(mgr, c.client, c.server)
      ensures err == PROXY_SUCCESS || err == PROXY_MAX_EVENTS
      ensures c.freed <==> err != PROXY_SUCCESS
      ensures Housed(conns, repr) && Numbered(conns, repr, listenFd)
      ensures InOrder(mgr.Table())
      ensures if c.freed then Known(mgr.Table())
              else Fine(mgr.Table(), c) && KnownBut(mgr.Table(), listenFd, conns, repr, c)
      ensures err == PROXY_SUCCESS <==> Room(old(mgr.Table()), inProgress)
      ensures mgr.Table() == if err == PROXY_SUCCESS then Entered(old(mgr.Table()), c, inProgress) else old(mgr.Table())
      ensures err == PROXY_SUCCESS && !inProgress ==> Running(mgr.Table(), c)
      ensures SameOthers(if err == PROXY_SUCCESS then {c} else {}, old(mgr.Table()), mgr.Table())
      ensures Events.KeepsPass(old(mgr.Rows()), old(mgr.log), mgr.Rows(), mgr.log)
    {
      hide Fine, Running, AsMap, Used, Events.KeepsPass, WellFormed, Events.RowsOf, Untouched, Apart;
      ghost var m, fx, fy := mgr.Table(), c.client.sockFd, c.server.sockFd;
      NoNegative(mgr);
      err := Separately(c, inProgress);
      ghost var m' := mgr.Table();
      NotNegative(mgr);
      hide Housed, Known;
      OrderElsewhere(m, m', c);
      if !c.freed {
        KnownWith(m, m', c);
      }
    }

    /** Registering c leaves the connections as they are; with the old table, they are still in order. */
    method Separately(c: Conn, inProgress: bool) returns (err: int)
      requires Valid() && Untouched(c) && c.ref == 0 && Foot(c) !! repr
      requires this !in Foot(c) && mgr !in Foot(c) && mgr.pfds !in Foot(c) && mgr.events !in Foot(c)
      requires mgr.trace !in Foot(c)
      requires Unused(c.client.sockFd) && Unused(c.server.sockFd)
      modifies c, mgr, mgr.pfds, mgr.events
      ensures mgr.Valid() && Apart(mgr, c.client, c.server)
      ensures err == PROXY_SUCCESS || err == PROXY_MAX_EVENTS
      ensures if c.freed then err != PROXY_SUCCESS && mgr.Table() == old(mgr.Table())
              else err == PROXY_SUCCESS && Fine(mgr.Table(), c)
      ensures err == PROXY_SUCCESS <==> Room(old(mgr.Table()), inProgress)
      ensures mgr.Table() == if err == PROXY_SUCCESS then Entered(old(mgr.Table()), c, inProgress) else old(mgr.Table())
      ensures err == PROXY_SUCCESS && !inProgress ==> Running(mgr.Table(), c)
      ensures SameOthers(if err == PROXY_SUCCESS then {c} else {}, old(mgr.Table()), mgr.Table())
      ensures old(c.client.sockFd !in mgr.Table() && c.server.sockFd !in mgr.Table())
      ensures c.client.sockFd == old(c.client.sockFd) && c.server.sockFd == old(c.server.sockFd)
      ensures mgr.Table() - {c.client.sockFd, c.server.sockFd} == old(mgr.Table()) - {c.client.sockFd, c.server.sockFd}
      ensures Standing(old(mgr.Table()), c.client.sockFd, c.server.sockFd)
      ensures Events.KeepsPass(old(mgr.Rows()), old(mgr.log), mgr.Rows(), mgr.log)
    {
      hide Running, Waiting, AsMap, Used, Events.KeepsPass, WellFormed, Events.RowsOf, Untouched, Apart;
      hide Valid, Housed, Standing, Foot, Unused;
      Newcomer(c);
      ghost var m := mgr.Table();
      err := Register(mgr, c, inProgress);
      assert Standing(m, c.client.sockFd, c.server.sockFd);
      if err == PROXY_SUCCESS {
        NewEntries(m, mgr.Table(), c);
      }
    }

    lemma NewEntries(m: Table, m': Table, c: Conn)
      requires Fine(m', c) && c.client.sockFd >= 0 && c.server.sockFd >= 0
      requires c.client.sockFd !in m && c.server.sockFd !in m
      requires m' - {c.client.sockFd, c.server.sockFd} == m - {c.client.sockFd, c.server.sockFd}
      ensures SameOthers({c}, m, m')
    {
      hide Fine;
      forall fd | fd in m' && (fd == c.client.sockFd || fd == c.server.sockFd)
        ensures m'[fd].data == Some(c)
      {
        OwnEntries(m', c, fd);
      }
      OnlyOwnChanged(m, m', c, c.client.sockFd, c.server.sockFd);
    }

    /** The connections are in order by the table m, and two numbers are free. */
    ghost predicate Standing(m: Table, fx: int, fy: int)
      reads this, repr
    {
      && Housed(conns, repr) && Numbered(conns, repr, listenFd) && Known(m) && InOrder(m)
      && Unused(fx) && Unused(fy)
    }

    lemma Newcomer(c: Conn)
      requires Valid() && Foot(c) !! repr && Unused(c.client.sockFd) && Unused(c.server.sockFd)
      requires mgr !in Foot(c) && mgr.pfds !in Foot(c) && mgr.events !in Foot(c) && mgr.trace !in Foot(c)
      ensures c.client.sockFd !in mgr.Table() && c.server.sockFd !in mgr.Table()
      ensures mgr.Valid() && c !in repr && Apart(mgr, c.client, c.server)
      ensures c.client.sockFd >= 0 && c.server.sockFd >= 0
      ensures mgr !in repr && mgr.pfds !in repr && mgr.events !in repr && mgr.trace !in repr
      ensures Standing(mgr.Table(), c.client.sockFd, c.server.sockFd)
    {
      hide Fine, AsMap, Events.EventManager.Valid, Numbered, InOrder;
    }

    lemma OrderElsewhere(m: Table, m': Table, c: Conn)
      requires Housed(conns, repr) && Numbered(conns, repr, listenFd) && InOrder(m)
      requires m' - {c.client.sockFd, c.server.sockFd} == m - {c.client.sockFd, c.server.sockFd}
      requires Unused(c.client.sockFd) && Unused(c.server.sockFd) && -1 !in m && -1 !in m'
      ensures InOrder(m')
    {
      hide Fine, NoShared;
      forall d | d in conns
        ensures Fine(m', d)
      {
        if d.client.sockFd >= 0 {
          MinusAt(m, m', c.client.sockFd, c.server.sockFd, d.client.sockFd);
        }
        if d.server.sockFd >= 0 {
          MinusAt(m, m', c.client.sockFd, c.server.sockFd, d.server.sockFd);
        }
        FineElsewhere(m, m', d);
      }
    }

    lemma KnownWith(m: Table, m': Table, c: Conn)
      requires Housed(conns, repr) && Known(m)
      requires m' - {c.client.sockFd, c.server.sockFd} == m - {c.client.sockFd, c.server.sockFd}
      requires c.client.sockFd !in m && c.server.sockFd !in m && forall fd <- m' :: fd >= 0
      requires Fine(m', c)
      requires Unused(c.client.sockFd) && Unused(c.server.sockFd)
      ensures KnownBut(m', listenFd, conns, repr, c)
    {
      hide Housed, Fine;
      forall fd | fd in m'
        ensures SameFor(m, m', fd) || (m'[fd].data == Some(c) && !Foreign(c, fd) && fd != listenFd)
      {
        if Foreign(c, fd) {
          MinusAt(m, m', c.client.sockFd, c.server.sockFd, fd);
        } else {
          OwnEntries(m', c, fd);
        }
      }
    }

    /** Whether the system may come up with this: new sockets have numbers that are free. */
    predicate MayCome(o: Incoming)
      requires Housed(conns, repr)
      reads this, repr
    {
      o.Came? ==> Unused(o.cfd) && Unused(o.sfd) && o.cfd != o.sfd
    }

    /**
      `accept_callback`: trouble on the listener, or a failure to accept, is an
      error and changes nothing; otherwise the listener goes on, and if both
      sockets are there and the table has room, one connection has come in.
    */
    method AcceptCallback(rev: Revents, o: Incoming) returns (err: int, ghost added: set<Conn>)
      requires Valid() && MayCome(o)
      modifies this, mgr, mgr.pfds, mgr.events, mgr.trace
      ensures Valid() && (forall o <- repr :: o in old(repr) || fresh(o))
      ensures mgr.trace.calls == old(mgr.trace.calls) + [Events.Called(listenFd, rev, Some(AcceptCb), None)]
      ensures err == if rev.trouble || rev.nval || rev.pollout || (rev.pollin && Fatal(o)) then PROXY_ERR
                     else PROXY_SUCCESS
      ensures conns == old(conns) + added && fresh(added)
      ensures |added| == if Arrives(rev, o) && Room(old(mgr.Table()), o.inProgress) then 1 else 0
      ensures forall c <- added ::
        && c.client.sockFd == o.cfd && c.server.sockFd == o.sfd && !c.freed
        && c.client.encrypted == encryptIn && c.server.encrypted == encryptOut
        && mgr.Table() == Entered(old(mgr.Table()), c, o.inProgress)
      ensures added == {} ==> mgr.Table() == old(mgr.Table())
      ensures SameOthers(added, old(mgr.Table()), mgr.Table())
      ensures Events.KeepsPass(old(mgr.Rows()), old(mgr.log), mgr.Rows(), mgr.log)
    {
      hide Fine, AsMap, Used, Events.KeepsPass, WellFormed, Events.RowsOf, Known, InOrder, Numbered, Entered;
      hide SameOthers, Housed;
      SameAsEver(mgr.Table());
      Events.KeepsPassRefl(mgr.Rows(), mgr.log);
      mgr.trace.Enter(listenFd, rev, AcceptCb, None);
      added := {};
      if rev.trouble || rev.nval || rev.pollout {
        return PROXY_ERR, {};
      }
      if !rev.pollin {
        return PROXY_SUCCESS, {};
      }
      match o {
        case NoClient => return PROXY_ERR, {};
        case Blocking(_) => return PROXY_ERR, {};
        case NoServer(_) => return PROXY_SUCCESS, {};
        case Came(cfd, sfd, inProgress) =>
          added := Admit(cfd, sfd, inProgress);
          return PROXY_SUCCESS, added;
      }
    }

    lemma Numbers(cfd: int, sfd: int)
      requires Valid() && Unused(cfd) && Unused(sfd)
      ensures cfd >= 0 && sfd >= 0 && wordBits >= 32
      ensures mgr !in repr && mgr.pfds !in repr && mgr.events !in repr && mgr.trace !in repr
      ensures this !in repr && mgr.Valid()
    {
    }

    /** Both sockets are there: the connection is set up and registered, if the table has room. */
    method Admit(cfd: int, sfd: int, inProgress: bool) returns (ghost added: set<Conn>)
      requires Valid() && Unused(cfd) && Unused(sfd) && cfd != sfd
      modifies this, mgr, mgr.pfds, mgr.events
      ensures Valid() && (forall o <- repr :: o in old(repr) || fresh(o))
      ensures conns == old(conns) + added && fresh(added)
      ensures |added| == if Room(old(mgr.Table()), inProgress) then 1 else 0
      ensures forall c <- added ::
        && c.client.sockFd == cfd && c.server.sockFd == sfd && !c.freed
        && c.client.encrypted == encryptIn && c.server.encrypted == encryptOut
        && mgr.Table() == Entered(old(mgr.Table()), c, inProgress)
      ensures added == {} ==> mgr.Table() == old(mgr.Table())
      ensures SameOthers(added, old(mgr.Table()), mgr.Table())
      ensures Events.KeepsPass(old(mgr.Rows()), old(mgr.log), mgr.Rows(), mgr.log)
    {
      hide Fine, AsMap, Used, Events.KeepsPass, WellFormed, Events.RowsOf, Known, InOrder, Numbered;
      hide Valid, Housed, Unused, Untouched, SameOthers;
      Numbers(cfd, sfd);
      var c := NewConn(cfd, sfd);
      var err := Enlist(c, inProgress);
      added := if err == PROXY_SUCCESS then {c} else {};
    }

    /** `handle_event` with the callbacks of the proxy. */
    method HandleEvent(idx: nat, ghost polled: seq<Row<Callback, Conn>>, ghost slots: seq<nat>)
      returns (err: int, ghost slots': seq<nat>)
      requires Valid() && idx < mgr.maxIdx && Events.Midway(polled, mgr.Rows(), mgr.log, slots, idx)
      requires Events.Asked(mgr.Rows())
      modifies this, repr, mgr, mgr.pfds, mgr.events, mgr.trace
      ensures Valid() && (forall o <- repr :: o in old(repr) || fresh(o))
      ensures Events.Midway(polled, mgr.Rows(), mgr.log, slots', idx + 1) && Events.Asked(mgr.Rows())
      ensures if old(mgr.Rows()[idx].revents) != 0 then
                slots' == slots + [idx]
                && mgr.trace.calls == old(mgr.trace.calls) + [Events.DueCall(old(mgr.Rows()[idx]))]
              else slots' == slots && mgr.trace.calls == old(mgr.trace.calls) && err == PROXY_SUCCESS
      ensures old(mgr.Rows()[idx].revents) != 0 ==> idx < |polled| && old(mgr.Rows()[idx]) == polled[idx]
      ensures old(conns) <= conns && forall d <- old(conns) :: old(d.freed) ==> ViewOf(d) == old(ViewOf(d))
    {
      hide Fine, AsMap, Used, ViewOf, Housed, Numbered, Known, InOrder, Events.Midway, Events.KeepsPass;
      err := PROXY_SUCCESS;
      var due, i := mgr.Next(idx, polled, slots);
      slots' := if due then slots + [idx] else slots;
      if due {
        ghost var r, l := mgr.Rows(), mgr.log;
        var e, rev := mgr.events[i], Events.Decode(mgr.pfds[i].revents);
        MapAt(mgr.Rows(), i);
        assert mgr.Table()[e.fd] == EntryOf(mgr.Rows()[i]);
        err := Call(e, rev);
        Events.MidwayKeeps(polled, r, l, mgr.Rows(), mgr.log, slots', idx + 1);
        Events.KeepsPassAsked(r, l, mgr.Rows(), mgr.log);
      }
    }

    /** The callback of a registration, with the registration's own descriptor and data. */
    method Call(e: Events.Event<Callback, Conn>, rev: Revents) returns (err: int)
      requires Valid() && e.fd >= 0 && e.fd in mgr.Table() && e.callback.Some?
      requires mgr.Table()[e.fd].callback == e.callback && mgr.Table()[e.fd].data == e.data
      requires rev.pollout ==> Events.Out(mgr.Table()[e.fd].mask)
      modifies this, repr, mgr, mgr.pfds, mgr.events, mgr.trace
      ensures Valid() && (forall o <- repr :: o in old(repr) || fresh(o))
      ensures mgr.trace.calls == old(mgr.trace.calls) + [Events.Called(e.fd, rev, e.callback, e.data)]
      ensures old(conns) <= conns && forall d <- old(conns) :: old(d.freed) ==> ViewOf(d) == old(ViewOf(d))
      ensures Events.KeepsPass(old(mgr.Rows()), old(mgr.log), mgr.Rows(), mgr.log)
    {
      if e.callback == Some(AcceptCb) {
        ghost var before := conns;
        hide Fine, AsMap, Used, ViewOf, Events.KeepsPass, WellFormed, Events.RowsOf, InOrder, Numbered;
        hide Housed, SameOthers;
        ListenerIs(e.fd);
        hide Known;
        var o: Incoming := *;
        if !MayCome(o) {
          o := NoClient;
        }
        ghost var added;
        err, added := AcceptCallback(rev, o);
        assert forall d <- before :: ViewOf(d) == old(ViewOf(d));
      } else {
        hide Fine, AsMap, Used, ViewOf, Events.KeepsPass, WellFormed, Events.RowsOf, SameOthers, Numbered, NoShared;
        OwnEntries(mgr.Table(), e.data.value, e.fd);
        OutIsWanted(mgr.Table(), e.data.value, e.fd, e.callback.value);
        err := Dispatch(e.data.value, e.fd, rev, e.callback.value);
      }
    }

    /** The callback of the listener is the listener's. */
    lemma ListenerIs(fd: int)
      requires Valid() && fd >= 0 && fd in mgr.Table() && mgr.Table()[fd].callback == Some(AcceptCb)
      ensures fd == listenFd && mgr.Table()[fd].data == None
    {
      hide AsMap, Used, WellFormed, Events.RowsOf, Numbered, Fine;
      if fd != listenFd {
        NotAccepting(mgr.Table(), mgr.Table()[fd].data.value, fd);
      }
    }

    /**
      One turn of `event_run_loop`. The callbacks that are called are those of
      slots that `poll` has reported on, in order and each at most once, with what
      stood in the slot when `poll` came back, and only if nothing happened to the
      registration before; when the pass completes, every slot reported on has been
      served or its registration was changed before its turn. Every connection
      stays in order or is freed, and freed ones are not touched.
    */
    method Pass() returns (err: int, ghost polled: seq<Row<Callback, Conn>>, ghost slots: seq<nat>)
      requires Valid()
      modifies this, repr, mgr, mgr.pfds, mgr.events, mgr.trace
      ensures Valid() && (forall o <- repr :: o in old(repr) || fresh(o)) 
      ensures mgr.trace.passes == old(mgr.trace.passes) + 1
      ensures Events.OncePer(mgr.log)
      ensures AsMap(polled) == old(mgr.Table()) && Events.Asked(polled)
      ensures Events.Rising(polled, slots, |polled|)
      ensures mgr.trace.calls == old(mgr.trace.calls) + Events.DueCalls(polled, slots)
      ensures err == PROXY_SUCCESS ==>
        Events.AllServed(polled, mgr.log, slots) && Events.Reported(polled) <= Events.Fds(mgr.log)
      ensures old(conns) <= conns && forall d <- old(conns) :: old(d.freed) ==> ViewOf(d) == old(ViewOf(d))
    {
      hide Housed, Numbered, Known, InOrder, AsMap, Used, WellFormed, Events.Midway, Events.AllServed, Events.Rising;
      mgr.StartPass();
      polled, slots := mgr.Rows(), [];
      Events.NoneServed(polled);
      assert old(mgr.trace.calls) + [] == old(mgr.trace.calls);
      var idx := 0;
      while idx < mgr.maxIdx
        invariant Valid() && (forall o <- repr :: o in old(repr) || fresh(o))
        invariant old(conns) <= conns && forall d <- old(conns) :: old(d.freed) ==> ViewOf(d) == old(ViewOf(d))
        invariant Events.Midway(polled, mgr.Rows(), mgr.log, slots, idx) && Events.Rising(polled, slots, |polled|)
        invariant Events.OncePer(mgr.log) && Events.Asked(mgr.Rows())
        invariant mgr.trace.calls == old(mgr.trace.calls) + Events.DueCalls(polled, slots)
        decreases 512 - idx
      {
        ghost var s, row := slots, mgr.Rows()[idx];
        err, slots := HandleEvent(idx, polled, slots);
        Events.MidwaySlots(polled, mgr.Rows(), mgr.log, slots, idx + 1);
        if row.revents != 0 {
          Events.OneMore(polled, s, idx);
        }
        if err != PROXY_SUCCESS {
          mgr.trace.passes := old(mgr.trace.passes) + 1;
          return;
        }
        idx := idx + 1;
      }
      Events.MidwayEnds(polled, mgr.Rows(), mgr.log, slots, idx);
      err := PROXY_SUCCESS;
      mgr.trace.passes := old(mgr.trace.passes) + 1;
    }

    /** `event_run_loop`: until the signal comes, `poll` fails or a callback reports an error. */
    method Loop(turns: nat) returns (err: int)
      requires Valid()
      modifies this, repr, mgr, mgr.pfds, mgr.events, mgr.trace
      ensures Valid() && (forall o <- repr :: o in old(repr) || fresh(o))
      ensures old(mgr.trace.calls) <= mgr.trace.calls
      ensures err == PROXY_SUCCESS ==> mgr.trace.passes == old(mgr.trace.passes) + turns
      ensures old(conns) <= conns && forall d <- old(conns) :: old(d.freed) ==> ViewOf(d) == old(ViewOf(d))
    {
      hide Housed, Numbered, Known, InOrder, AsMap, Used, WellFormed;
      hide Events.AllServed, Events.Rising, Events.DueCalls, Events.Asked, Events.OncePer;
      var i := 0;
      while i < turns
        invariant Valid() && (forall o <- repr :: o in old(repr) || fresh(o)) && i <= turns
        invariant old(mgr.trace.calls) <= mgr.trace.calls && mgr.trace.passes == old(mgr.trace.passes) + i
        invariant old(conns) <= conns && forall d <- old(conns) :: old(d.freed) ==> ViewOf(d) == old(ViewOf(d))
      {
        var failed: bool := *;
        if failed {
          return PROXY_ERR;
        }
        ghost var polled, slots;
        err, polled, slots := Pass();
        if err != PROXY_SUCCESS {
          return;
        }
        i := i + 1;
      }
      err := PROXY_SUCCESS;
    }

    /** The listener leaves the table; the connections stay. */
    method StopListening()
      requires Valid()
      modifies mgr, mgr.pfds, mgr.events
      ensures Valid() && listenFd !in mgr.Table()
    {
      hide Fine, AsMap, Used, Events.KeepsPass, WellFormed, Events.RowsOf;
      ghost var m := mgr.Table();
      NoNegative(mgr);
      var e := mgr.Remove(listenFd);
      ghost var m' := mgr.Table();
      assert InOrder(m) && Numbered(conns, repr, listenFd) && Known(m);
      forall c | c in conns
        ensures Fine(m', c)
      {
        FineElsewhere(m, m', c);
      }
    }
  }

  /**
    Any connection that a running proxy ever had, whatever has happened so far:
    nothing is lost, invented or reordered in either direction; if it ended in
    an orderly way, the side that ended was read to the end of its stream and all of
    it has been delivered; a side that has left before was read to its end as well;
    and POLLOUT is asked for on a side in the data phase exactly when there is
    something to send to it.
  */
  lemma EveryConnection(w: World, c: Conn)
    requires w.Valid() && c in w.conns
    ensures c.toClient.Valid() && c.toServer.Valid()
    ensures c.client.got == c.server.put + c.toServer.Unsent()
    ensures c.server.got == c.client.put + c.toClient.Unsent()
    ensures c.freed && c.ending == ClientDone ==> c.server.put == c.client.got && Ended(c.client)
    ensures c.freed && c.ending == ServerDone ==> c.client.put == c.server.got && Ended(c.server)
    ensures !c.client.encrypted && Ended(c.client) ==> c.client.got == c.client.inp.sent
    ensures !c.server.encrypted && Ended(c.server) ==> c.server.got == c.server.inp.sent
    ensures !c.freed && c.client.sockFd == -1 ==> Ended(c.client)
    ensures !c.freed && c.server.sockFd == -1 ==> Ended(c.server)
    ensures c.freed ==> c.client.sockFd == -1 && c.server.sockFd == -1
    ensures MaskFits(w.mgr.Table(), c.client, c.toClient) && MaskFits(w.mgr.Table(), c.server, c.toServer)
  {
    NoNegative(w.mgr);
    hide Net.Valid, Retries, Separate, AsMap, Events.EventManager.Valid, Housed, Numbered, World.Known;
    assert Fine(w.mgr.Table(), c);
    hide World.InOrder;
    if !c.freed && Waiting(w.mgr.Table(), c) {
      assert c.client.sockFd !in w.mgr.Table();
    }
    ReadToTheEnd(c.client);
    ReadToTheEnd(c.server);
  }

  /** All that a plain side had to send has been obtained once it has ended. */
  lemma ReadToTheEnd(net: Net)
    requires net.Valid()
    ensures !net.encrypted && Ended(net) ==> net.got == net.inp.sent
  {
    ObtainedIsSaid(net);
    hide Net.Valid;
  }

  /** No connection has an entry with the listener's callback. */
  lemma NotAccepting(m: Table, c: Conn, fd: int)
    requires Fine(m, c) && fd in m && fd >= 0 && !Foreign(c, fd)
    ensures m[fd].callback != Some(AcceptCb)
  {
    hide Net.Valid, Retries, Conserved, Separate;
  }

  lemma OutIsWanted(m: Table, c: Conn, fd: int, cb: Callback)
    requires Fine(m, c) && Listed(m, c, fd, cb) && fd >= 0
    ensures Events.Out(m[fd].mask) ==> WantsOut(m[fd].mask)
  {
    hide Net.Valid, Retries, Conserved;
  }
}
