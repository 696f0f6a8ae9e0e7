/** proxy.c: what the callbacks do with one connection and the event table. */
module Proxy {
  import opened Errors
  import opened CryptoBox
  import opened Receiving
  import opened LinkSpec
  import opened Wires
  import opened NetNacl
  import opened Bufs
  import opened EventRows
  import Events

  const POLLIN: int := 1
  const POLLOUT: int := 4

  datatype Callback = AcceptCb | PendingConnectCb | HandshakeCb | ConnCb

  type Revents = Events.Revents
  type Manager = Events.EventManager<Callback, Conn>
  type Table = map<int, Entry<Callback, Conn>>

  ghost predicate WantsOut(mask: int) {
    mask == POLLOUT || mask == POLLIN + POLLOUT
  }

  /**
    How a connection ended: a side had left and everything it sent had been
    delivered, or it was cut off before that.
  */
  datatype Ending = Cut | ClientDone | ServerDone

  /** `conn_t`; `freed` stands for the memory having been given back. */
  class Conn {
    const client: Net
    const server: Net
    const toClient: Buf
    const toServer: Buf
    var ref: int
    var freed: bool
    ghost var ending: Ending

    constructor (client: Net, server: Net)
      requires client.repr !! server.repr && client in client.repr && server in server.repr
      ensures this.client == client && this.server == server && ref == 0 && !freed && ending == Cut
      ensures this !in client.repr && this !in server.repr
      ensures fresh(toClient) && fresh(toServer) && fresh(toClient.data) && fresh(toServer.data)
      ensures toClient.Valid() && toServer.Valid() && toClient.size == 0 && toServer.size == 0
      ensures Separate(client, server, toClient, toServer)
    {
      this.client, this.server, ref, freed, ending := client, server, 0, false, Cut;
      toClient := new Buf();
      toServer := new Buf();
    }

    /** x is one side and y the other; xb and yb hold what is to be sent to x and to y. */
    ghost predicate Sides(x: Net, y: Net, xb: Buf, yb: Buf) {
      || (x == client && y == server && xb == toClient && yb == toServer)
      || (x == server && y == client && xb == toServer && yb == toClient)
    }

    /** The orderly ending in which everything that x sent has been delivered. */
    ghost function DoneBy(x: Net): (r: Ending) {
      if x == client then ClientDone else ServerDone
    }
  }

  /** The two sides and the two buffers are separate memory. */
  ghost predicate Separate(x: Net, y: Net, xb: Buf, yb: Buf)
    reads x, y
  {
    && x.repr !! y.repr && x in x.repr && y in y.repr
    && xb != yb && xb.data != yb.data
    && xb !in x.repr && xb.data !in x.repr && yb !in x.repr && yb.data !in x.repr
    && xb !in y.repr && xb.data !in y.repr && yb !in y.repr && yb.data !in y.repr
  }

  /** Conservation, both ways: what was read from a side is what the other has taken, then the buffer. */
  ghost predicate Conserved(x: Net, y: Net, xb: Buf, yb: Buf)
    reads x, y, xb, yb, xb.data, yb.data
  {
    && xb.Valid() && yb.Valid()
    && x.got == y.put + yb.Unsent()
    && y.got == x.put + xb.Unsent()
  }

  ghost predicate Sound(x: Net, y: Net, xb: Buf, yb: Buf)
    reads x, y, x.repr, y.repr, xb, yb, xb.data, yb.data
  {
    && Separate(x, y, xb, yb) && x.Valid() && y.Valid() && Conserved(x, y, xb, yb)
  }

  /** A side that has left while the connection goes on has ended. */
  ghost predicate Left(net: Net)
    reads net, net.repr
  {
    Gone(net) && net.inp in net.repr && Ended(net)
  }

  /** A side without a socket has no encryption context either. */
  ghost predicate Gone(net: Net)
    reads net
  {
    net.sockFd == -1 && net.nn == null
  }

  /** The side's entry belongs to the connection and runs one of the two data-phase callbacks. */
  ghost predicate Registered(m: Table, c: Conn, net: Net)
    reads net, net.repr
  {
    && net.sockFd in m && m[net.sockFd].data == Some(c)
    && (m[net.sockFd].mask == POLLIN || WantsOut(m[net.sockFd].mask))
    && (m[net.sockFd].callback == Some(HandshakeCb) ==> net.encrypted)
    && (m[net.sockFd].callback != Some(HandshakeCb) ==> m[net.sockFd].callback == Some(ConnCb) && net.Ready())
  }

  /** POLLOUT is asked for exactly when there is something to send. */
  ghost predicate MaskFits(m: Table, net: Net, buf: Buf)
    reads net, buf
  {
    net.sockFd in m && m[net.sockFd].callback == Some(ConnCb) ==> (WantsOut(m[net.sockFd].mask) <==> buf.size > 0)
  }

  ghost predicate SideOk(m: Table, c: Conn, net: Net)
    reads net, net.repr
  {
    Left(net) || (net.sockFd >= 0 && Registered(m, c, net))
  }

  /** Everything about an established connection except the interest masks. */
  ghost predicate Linked(m: Table, c: Conn, x: Net, y: Net, xb: Buf, yb: Buf)
    reads c, x, y, x.repr, y.repr, xb, yb, xb.data, yb.data
  {
    && c.Sides(x, y, xb, yb) && !c.freed && c.ending == Cut && c.ref == 2 && c !in x.repr && c !in y.repr
    && Sound(x, y, xb, yb)
    && Retries(x, xb) && Retries(y, yb)
    && SideOk(m, c, x) && SideOk(m, c, y) && x.sockFd != y.sockFd
  }

  ghost predicate Established(m: Table, c: Conn, x: Net, y: Net, xb: Buf, yb: Buf)
    reads c, x, y, x.repr, y.repr, xb, yb, xb.data, yb.data
  {
    Linked(m, c, x, y, xb, yb) && MaskFits(m, x, xb) && MaskFits(m, y, yb)
  }

  /** An orderly ending means that one side has ended, and full delivery in its direction. */
  ghost predicate Delivered(c: Conn, x: Net, y: Net)
    reads c, x, y, x.inp, y.inp
  {
    && (c.ending == c.DoneBy(x) ==> y.put == x.got && Ended(x))
    && (c.ending == c.DoneBy(y) ==> x.put == y.got && Ended(y))
  }

  /** Closed and freed; the history still adds up. */
  ghost predicate Finished(c: Conn, x: Net, y: Net, xb: Buf, yb: Buf)
    reads c, x, y, x.repr, y.repr, xb, yb, xb.data, yb.data
  {
    && c.Sides(x, y, xb, yb) && c.freed && Sound(x, y, xb, yb) && Gone(x) && Gone(y)
    && x.inp in x.repr && y.inp in y.repr && Delivered(c, x, y)
  }

  ghost predicate Apart(mgr: Manager, x: Net, y: Net)
    reads x, y
  {
    && mgr !in x.repr && mgr.pfds !in x.repr && mgr.events !in x.repr && mgr.trace !in x.repr
    && mgr !in y.repr && mgr.pfds !in y.repr && mgr.events !in y.repr && mgr.trace !in y.repr
  }

  // ---------- what a callback makes of a connection ----------

  /** A connection between two callbacks: the table, the two descriptors, and whether and how it is over. */
  datatype Seen = Seen(table: Table, fx: int, fy: int, freed: bool, ending: Ending)

  ghost function Now(m: Table, c: Conn, x: Net, y: Net): (r: Seen)
    reads c, x, y
  {
    Seen(m, x.sockFd, y.sockFd, c.freed, c.ending)
  }

  /** What happens to it: nothing, a new mask for one side, the end of side x alone, or the end. */
  datatype Fate = Waits | Asks(fd: int, mask: int) | HalfOver | Over(ending: Ending)

  function Masked(m: Table, fd: int, mask: int): (r: Table) {
    if fd in m then m[fd := m[fd].(mask := mask)] else m
  }

  function Step(f: Fate, s: Seen): (r: Seen) {
    match f
    case Waits => s
    case Asks(fd, mask) => s.(table := Masked(s.table, fd, mask))
    case HalfOver => s.(table := Masked(s.table - {s.fx}, s.fy, POLLIN + POLLOUT), fx := -1)
    case Over(ending) => Seen(s.table - {s.fx, s.fy}, -1, -1, true, ending)
  }

  /** What the answer of `buf_recv` on x means; `done` is the orderly ending in which x has ended. */
  function ReadFate(read: int, pending: bool, fy: int, done: Ending): (r: Fate) {
    if read == PROXY_WOULD_BLOCK then Waits
    else if read == PROXY_SUCCESS || (read == PROXY_DISCONNECT && pending) then
      if fy == -1 then Over(Cut) else if read == PROXY_SUCCESS then Asks(fy, POLLIN + POLLOUT) else HalfOver
    else Over(if read == PROXY_DISCONNECT then done else Cut)
  }

  function ReadErr(read: int, pending: bool, fy: int): (err: int) {
    if read == PROXY_WOULD_BLOCK then PROXY_SUCCESS
    else if read == PROXY_SUCCESS || (read == PROXY_DISCONNECT && pending) then
      if fy == -1 then PROXY_DISCONNECT else PROXY_SUCCESS
    else read
  }

  /** What the answer of `buf_send` on x means; `done` is the orderly ending in which the other side has ended. */
  function SendFate(written: int, fx: int, fy: int, done: Ending): (r: Fate) {
    if written == PROXY_WOULD_BLOCK then Waits
    else if written != PROXY_SUCCESS then Over(Cut)
    else if fy == -1 then Over(done)
    else Asks(fx, POLLIN)
  }

  function SendErr(written: int, fy: int): (err: int) {
    if written == PROXY_WOULD_BLOCK then PROXY_SUCCESS
    else if written == PROXY_SUCCESS && fy == -1 then PROXY_DISCONNECT
    else written
  }

  /** What has come of the calls on side x: outcomes on its wires, and the sizes of the buffers for it and from it. */
  datatype Side = Side(recvs: seq<Io>, sends: seq<Io>, atEnd: bool, noText: bool, waiting: nat, pending: nat)

  ghost function SideOf(x: Net, xb: Buf, yb: Buf): (r: Side)
    reads x, x.inp, x.out, xb, yb
  {
    Side(x.inp.recvs, x.out.sends, AtEnd(x), NoTextNext(x), xb.size, yb.size)
  }

  /**
    `handle_recv`: nothing if data still waits for the other side; otherwise one
    `buf_recv`, whose answer decides.
  */
  ghost predicate Recvd(p: Side, p': Side, s: Seen, s': Seen, err: int, read: int, done: Ending) {
    if p.pending > 0 then s' == s && p' == p && err == PROXY_SUCCESS
    else
      && Answers(p.recvs, p'.recvs, p'.atEnd, p'.noText, p'.pending, read)
      && p'.sends == p.sends && p'.waiting == p.waiting
      && s' == Step(ReadFate(read, p'.pending > 0, s.fy, done), s) && err == ReadErr(read, p'.pending > 0, s.fy)
  }

  /** `handle_send`: one `buf_send`, whose answer decides; a side without a socket takes nothing. */
  ghost predicate Sent(p: Side, p': Side, s: Seen, s': Seen, err: int, written: int, plain: bool, done: Ending) {
    && (written == PROXY_SUCCESS <==> p'.waiting == 0)
    && (if s.fx != -1 then written == PROXY_SUCCESS || SendStopped(p.sends, p'.sends, written)
        else written != PROXY_SUCCESS && (plain ==> written == PROXY_ERR))
    && p' == p.(sends := p'.sends, waiting := p'.waiting)
    && s' == Step(SendFate(written, s.fx, s.fy, done), s) && err == SendErr(written, s.fy)
  }

  /** The connection is over: both sides are out of the table and without a socket. */
  predicate Shut(s: Seen, s': Seen, ending: Ending) {
    s' == Seen(s.table - {s.fx, s.fy}, -1, -1, true, ending)
  }

  /**
    What `handle_recv` has done, by what happened on the wire: it waits only for a side that is silent, it asks for
    writing only where bytes were read and the other side is there, and it closes only after a failure, after an
    end with nothing left to pass on, or where the bytes have nobody to go to.
  */
  lemma RecvdMeans(p: Side, p': Side, s: Seen, s': Seen, err: int, read: int, done: Ending)
    requires Recvd(p, p', s, s', err, read, done) && p.pending == 0
    ensures var why := Last(p'.recvs);
            var called := p.recvs < p'.recvs;
            var ended := (called && why.Closed? && p'.atEnd) || p'.noText;
            || (p'.pending == 0 && called && why.Blocked? && s' == s && err == PROXY_SUCCESS)
            || (p'.pending < BUF_SIZ && called && why.Failed? && Shut(s, s', Cut) && err == PROXY_ERR)
            || (p'.pending == 0 && ended && Shut(s, s', done) && err == PROXY_DISCONNECT)
            || (p'.pending > 0 && s.fy == -1 && Shut(s, s', Cut) && err == PROXY_DISCONNECT)
            || (p'.pending > 0 && s.fy != -1 && err == PROXY_SUCCESS
                && (p'.pending == BUF_SIZ || (called && why.Blocked?))
                && (s.fy in s.table ==> s' == s.(table := s.table[s.fy := s.table[s.fy].(mask := POLLIN + POLLOUT)])))
            || (0 < p'.pending < BUF_SIZ && s.fy != -1 && err == PROXY_SUCCESS && ended
                && (s.fy in s.table && s.fx != s.fy ==>
                      s' == s.(table := s.table[s.fy := s.table[s.fy].(mask := POLLIN + POLLOUT)] - {s.fx}, fx := -1)))
  {
  }

  /**
    What `handle_send` has done: the side is served again for reading once everything has gone, the other side's
    orderly end is carried out then, a full wire is waited for, and everything else closes the connection.
  */
  lemma SentMeans(p: Side, p': Side, s: Seen, s': Seen, err: int, written: int, plain: bool, done: Ending)
    requires Sent(p, p', s, s', err, written, plain, done) && s.fx != -1
    ensures var why := Last(p'.sends);
            || (p'.waiting == 0 && s.fy == -1 && Shut(s, s', done) && err == PROXY_DISCONNECT)
            || (p'.waiting == 0 && s.fy != -1 && err == PROXY_SUCCESS
                && (s.fx in s.table ==> s' == s.(table := s.table[s.fx := s.table[s.fx].(mask := POLLIN)])))
            || (p'.waiting > 0 && p.sends < p'.sends && why.Blocked? && s' == s && err == PROXY_SUCCESS)
            || (p'.waiting > 0 && p.sends < p'.sends && Shut(s, s', Cut)
                && ((why.Failed? && why.reset && err == PROXY_DISCONNECT)
                    || ((why.Closed? || (why.Failed? && !why.reset)) && err == PROXY_ERR)))
  {
  }

  // ---------- closing ----------

  /** Takes one side out of the table and closes it. */
  method DropSide(mgr: Manager, net: Net)
    requires mgr.Valid() && net.Valid() && net.sockFd >= -1
    requires mgr !in net.repr && mgr.pfds !in net.repr && mgr.events !in net.repr
    modifies mgr, mgr.pfds, mgr.events, net
    ensures mgr.Valid() && net.Valid() && Gone(net)
    ensures mgr.Table() == old(mgr.Table()) - {old(net.sockFd)}
    ensures net.repr == old(net.repr) && net.got == old(net.got) && net.put == old(net.put)
    ensures net.frames == old(net.frames) && net.coming == old(net.coming)
    ensures Events.KeepsPass(old(mgr.Rows()), old(mgr.log), mgr.Rows(), mgr.log)
  {
    hide Net.Valid, AsMap, Used, Events.KeepsPass, WellFormed, Events.RowsOf;
    Events.KeepsPassRefl(mgr.Rows(), mgr.log);
    MapKeys(mgr.Rows(), -1);
    if net.sockFd != -1 {
      var e := mgr.Remove(net.sockFd);
    }
    assert net.Valid();
    net.Shut();
  }

  method CloseConnection(mgr: Manager, c: Conn, ghost x: Net, ghost y: Net, ghost xb: Buf, ghost yb: Buf)
    requires mgr.Valid() && !c.freed && c.Sides(x, y, xb, yb) && Apart(mgr, x, y) && Sound(x, y, xb, yb)
    requires c !in x.repr && c !in y.repr && x.sockFd >= -1 && y.sockFd >= -1 && Delivered(c, x, y)
    modifies mgr, mgr.pfds, mgr.events, c, x, y
    ensures mgr.Valid() && Finished(c, x, y, xb, yb) && Apart(mgr, x, y)
    ensures Now(mgr.Table(), c, x, y) == Step(Over(c.ending), old(Now(mgr.Table(), c, x, y)))
    ensures x.repr == old(x.repr) && y.repr == old(y.repr) && c.ending == old(c.ending)
    ensures x.coming == old(x.coming) && y.coming == old(y.coming)
    ensures Events.KeepsPass(old(mgr.Rows()), old(mgr.log), mgr.Rows(), mgr.log)
  {
    hide Net.Valid, AsMap, Used, Events.KeepsPass, WellFormed, Events.RowsOf, Conserved;
    if x != c.client {
      SoundSwap(x, y, xb, yb);
    }
    CloseBoth(mgr, c);
    if x != c.client {
      SoundSwap(y, x, yb, xb);
    }
    Parts(x);
    Parts(y);
  }

  method CloseBoth(mgr: Manager, c: Conn)
    requires mgr.Valid() && !c.freed && Apart(mgr, c.client, c.server)
    requires Sound(c.client, c.server, c.toClient, c.toServer)
    requires c !in c.client.repr && c !in c.server.repr && c.client.sockFd >= -1 && c.server.sockFd >= -1
    modifies mgr, mgr.pfds, mgr.events, c, c.client, c.server
    ensures mgr.Valid() && c.freed && Sound(c.client, c.server, c.toClient, c.toServer)
    ensures Gone(c.client) && Gone(c.server)
    ensures mgr.Table() == old(mgr.Table()) - {old(c.client.sockFd), old(c.server.sockFd)}
    ensures c.client.repr == old(c.client.repr) && c.server.repr == old(c.server.repr) && c.ending == old(c.ending)
    ensures c.client.coming == old(c.client.coming) && c.server.coming == old(c.server.coming)
    ensures c.client.got == old(c.client.got) && c.client.put == old(c.client.put)
    ensures c.server.got == old(c.server.got) && c.server.put == old(c.server.put)
    ensures Events.KeepsPass(old(mgr.Rows()), old(mgr.log), mgr.Rows(), mgr.log)
  {
    hide Net.Valid, AsMap, Used, Events.KeepsPass, WellFormed, Events.RowsOf;
    DropSide(mgr, c.client);
    ghost var r, l := mgr.Rows(), mgr.log;
    assert c.server.Valid();
    DropSide(mgr, c.server);
    assert c.client.Valid();
    Events.KeepsPassTrans(old(mgr.Rows()), old(mgr.log), r, l, mgr.Rows(), mgr.log);
    c.ref, c.freed := 0, true;
  }

  lemma SoundSwap(x: Net, y: Net, xb: Buf, yb: Buf)
    requires Sound(x, y, xb, yb)
    ensures Sound(y, x, yb, xb)
  {
    hide Net.Valid;
  }

  /** `event_modify` on a side of an established connection brings its mask into line with its buffer. */
  method Rearm(mgr: Manager, c: Conn, x: Net, ghost y: Net, ghost xb: Buf, ghost yb: Buf, mask: int) returns (err: int)
    requires mgr.Valid() && Apart(mgr, x, y) && Linked(mgr.Table(), c, x, y, xb, yb) && x.sockFd >= 0
    requires MaskFits(mgr.Table(), y, yb) && mask == if xb.size > 0 then POLLIN + POLLOUT else POLLIN
    modifies mgr, mgr.pfds, mgr.events
    ensures mgr.Valid() && Apart(mgr, x, y) && Established(mgr.Table(), c, x, y, xb, yb)
    ensures err == PROXY_SUCCESS && mgr.Table() == Masked(old(mgr.Table()), x.sockFd, mask)
    ensures Events.KeepsPass(old(mgr.Rows()), old(mgr.log), mgr.Rows(), mgr.log)
  {
    hide Net.Valid, AsMap, Used, Events.KeepsPass, WellFormed, Events.RowsOf;
    ghost var m := mgr.Table();
    err := mgr.Modify(x.sockFd, mask);
    assert Sound(x, y, xb, yb) && Retries(x, xb) && Retries(y, yb);
    assert mgr.Table() == m[x.sockFd := m[x.sockFd].(mask := mask)];
  }

  lemma LinkedSwap(m: Table, c: Conn, x: Net, y: Net, xb: Buf, yb: Buf)
    requires Linked(m, c, x, y, xb, yb)
    ensures Linked(m, c, y, x, yb, xb)
  {
    hide Net.Valid, Retries, SideOk;
  }

  // ---------- receiving ----------

  /** `buf_recv` from x on an established connection: all that came in is owed to y. */
  method Receive(c: Conn, x: Net, y: Net, xb: Buf, yb: Buf, ghost m: Table)
    returns (err: int)
    requires Established(m, c, x, y, xb, yb) && yb.size == 0 && x.Ready() && x.sockFd >= 0
    modifies x.repr, yb, yb.data
    ensures Linked(m, c, x, y, xb, yb) && MaskFits(m, x, xb) && (yb.size == 0 ==> MaskFits(m, y, yb))
    ensures x.repr == old(x.repr) && y.repr == old(y.repr) && x.sockFd == old(x.sockFd) && y.sockFd == old(y.sockFd)
    ensures xb.size == old(xb.size) && x.Ready()
    ensures err == PROXY_SUCCESS ==> yb.size > 0
    ensures err == PROXY_WOULD_BLOCK ==> yb.size == 0
    ensures err == PROXY_SUCCESS || err == PROXY_WOULD_BLOCK || err == PROXY_DISCONNECT || err == PROXY_ERR
    ensures Answers(old(x.inp.recvs), x.inp.recvs, AtEnd(x), NoTextNext(x), yb.size, err)
    ensures x.out.sends == old(x.out.sends) && (err == PROXY_DISCONNECT ==> Ended(x))
  {
    hide Net.Valid, Net.Ready, Retries, Sound;
    err := ReadInto(x, y, xb, yb);
  }

  /** `buf_recv` from x, as far as the two sides and the two buffers go. */
  method ReadInto(x: Net, y: Net, xb: Buf, yb: Buf) returns (err: int)
    requires Sound(x, y, xb, yb) && Retries(x, xb) && Retries(y, yb) && yb.size == 0 && x.Ready()
    modifies x.repr, yb, yb.data
    ensures Sound(x, y, xb, yb) && Retries(x, xb) && Retries(y, yb) && x.Ready() && y.Ready() == old(y.Ready())
    ensures x.repr == old(x.repr) && y.repr == old(y.repr) && x.sockFd == old(x.sockFd) && y.sockFd == old(y.sockFd)
    ensures x.nn == old(x.nn) && y.nn == old(y.nn) && xb.size == old(xb.size)
    ensures err == PROXY_SUCCESS ==> yb.size > 0
    ensures err == PROXY_WOULD_BLOCK ==> yb.size == 0
    ensures err == PROXY_SUCCESS || err == PROXY_WOULD_BLOCK || err == PROXY_DISCONNECT || err == PROXY_ERR
    ensures Answers(old(x.inp.recvs), x.inp.recvs, AtEnd(x), NoTextNext(x), yb.size, err)
    ensures x.out.sends == old(x.out.sends) && (err == PROXY_DISCONNECT ==> Ended(x))
    ensures Left(y) == old(Left(y))
  {
    hide Net.Valid, Net.InFlight, Net.Ready, Carries, Buf.Unsent;
    Parts(x);
    Parts(y);
    NothingPending(y, yb);
    err := BufRecv(x, yb);
    assert y.Valid() && !y.InFlight();
    assert xb.Unsent() == old(xb.Unsent());
  }

  /** Nothing is in flight to a side for which nothing is pending. */
  lemma NothingPending(y: Net, yb: Buf)
    requires yb.Valid() && Retries(y, yb) && yb.size == 0
    ensures !y.InFlight() && yb.Unsent() == []
  {
    hide Net.InFlight;
  }

  /** The side has kept its descriptor, or has none and the old one is out of the table. */
  ghost predicate Still(m: Table, net: Net, fd: int)
    reads net
  {
    net.sockFd == fd || (net.sockFd == -1 && fd !in m)
  }

  /** What a callback leaves behind: a connection in order, or one that is closed and freed. */
  ghost predicate Outcome(err: int, m: Table, m': Table, c: Conn, x: Net, y: Net, xb: Buf, yb: Buf, fx: int, fy: int)
    reads c, x, y, x.repr, y.repr, xb, yb, xb.data, yb.data
  {
    && m' - {fx, fy} == m - {fx, fy}
    && (err == PROXY_SUCCESS ==> Established(m', c, x, y, xb, yb) && Still(m', x, fx) && Still(m', y, fy))
    && (err != PROXY_SUCCESS ==> Finished(c, x, y, xb, yb) && fx !in m' && fy !in m')
  }

  /** Data has arrived for y and x goes on: y is asked about sending, or all ends if y has left. */
  method PassOn(mgr: Manager, c: Conn, x: Net, y: Net, xb: Buf, yb: Buf) returns (err: int)
    requires mgr.Valid() && Apart(mgr, x, y)
    requires Linked(mgr.Table(), c, x, y, xb, yb) && MaskFits(mgr.Table(), x, xb) && yb.size > 0 && x.sockFd >= 0
    requires x.Ready()
    modifies mgr, mgr.pfds, mgr.events, c, x, y
    ensures mgr.Valid() && Apart(mgr, x, y)
    ensures Outcome(err, old(mgr.Table()), mgr.Table(), c, x, y, xb, yb, old(x.sockFd), old(y.sockFd))
    ensures x.repr == old(x.repr) && y.repr == old(y.repr)
    ensures err == PROXY_SUCCESS || (err == PROXY_DISCONNECT && old(y.sockFd) == -1)
    ensures Now(mgr.Table(), c, x, y)
         == Step(ReadFate(PROXY_SUCCESS, true, old(y.sockFd), c.DoneBy(x)), old(Now(mgr.Table(), c, x, y)))
    ensures err == ReadErr(PROXY_SUCCESS, true, old(y.sockFd)) && x.coming == old(x.coming)
    ensures x.sockFd >= 0 ==> x.Ready()
    ensures Events.KeepsPass(old(mgr.Rows()), old(mgr.log), mgr.Rows(), mgr.log)
  {
    hide Net.Valid, Retries, AsMap, Used, Events.KeepsPass, WellFormed, Events.RowsOf;
    NoNegative(mgr);
    if y.sockFd == -1 {
      CloseConnection(mgr, c, x, y, xb, yb);
      err := PROXY_DISCONNECT;
      assert mgr.Table() - {old(x.sockFd), -1} == old(mgr.Table()) - {old(x.sockFd), -1};
    } else {
      err := Offer(mgr, c, x, y, xb, yb);
      hide Established;
      MinusTwo(mgr.Table(), x.sockFd, y.sockFd);
      MinusTwo(old(mgr.Table()), x.sockFd, y.sockFd);
    }
  }

  /** Data has arrived for y and x has ended: x is closed before anything else. */
  method PassOnEnded(mgr: Manager, c: Conn, x: Net, y: Net, xb: Buf, yb: Buf) returns (err: int)
    requires mgr.Valid() && Apart(mgr, x, y)
    requires Linked(mgr.Table(), c, x, y, xb, yb) && MaskFits(mgr.Table(), x, xb) && yb.size > 0 && x.sockFd >= 0
    requires x.Ready() && Ended(x)
    modifies mgr, mgr.pfds, mgr.events, c, x, y
    ensures mgr.Valid() && Apart(mgr, x, y)
    ensures Outcome(err, old(mgr.Table()), mgr.Table(), c, x, y, xb, yb, old(x.sockFd), old(y.sockFd))
    ensures x.repr == old(x.repr) && y.repr == old(y.repr)
    ensures err == PROXY_SUCCESS || (err == PROXY_DISCONNECT && old(y.sockFd) == -1)
    ensures Now(mgr.Table(), c, x, y)
         == Step(ReadFate(PROXY_DISCONNECT, true, old(y.sockFd), c.DoneBy(x)), old(Now(mgr.Table(), c, x, y)))
    ensures err == ReadErr(PROXY_DISCONNECT, true, old(y.sockFd)) && x.coming == old(x.coming)
    ensures Gone(x) && (err == PROXY_SUCCESS || old(y.sockFd) == -1)
    ensures Events.KeepsPass(old(mgr.Rows()), old(mgr.log), mgr.Rows(), mgr.log)
  {
    hide Net.Valid, Retries, AsMap, Used, Events.KeepsPass, WellFormed, Events.RowsOf, Conserved, Ended;
    NoNegative(mgr);
    ghost var fx, fy, m := x.sockFd, y.sockFd, mgr.Table();
    EndSide(mgr, c, x, y, xb, yb);
    ghost var r, l := mgr.Rows(), mgr.log;
    if y.sockFd == -1 {
      CloseConnection(mgr, c, x, y, xb, yb);
      err := PROXY_DISCONNECT;
      assert mgr.Table() - {fx, -1} == m - {fx, -1};
    } else {
      err := Offer(mgr, c, x, y, xb, yb);
      hide Established;
      MinusTwo(mgr.Table(), fx, fy);
      MinusTwo(m, fx, fy);
      NotBack(m - {fx}, mgr.Table(), fx, fy);
    }
    Events.KeepsPassTrans(old(mgr.Rows()), old(mgr.log), r, l, mgr.Rows(), mgr.log);
  }

  /** There is data for y: ask to be told when y can take it. */
  method Offer(mgr: Manager, c: Conn, ghost x: Net, y: Net, ghost xb: Buf, ghost yb: Buf) returns (err: int)
    requires mgr.Valid() && Apart(mgr, x, y) && Linked(mgr.Table(), c, x, y, xb, yb) && y.sockFd >= 0
    requires MaskFits(mgr.Table(), x, xb) && yb.size > 0
    modifies mgr, mgr.pfds, mgr.events
    ensures mgr.Valid() && Apart(mgr, x, y) && Established(mgr.Table(), c, x, y, xb, yb)
    ensures err == PROXY_SUCCESS && mgr.Table() == Masked(old(mgr.Table()), y.sockFd, POLLIN + POLLOUT)
    ensures Events.KeepsPass(old(mgr.Rows()), old(mgr.log), mgr.Rows(), mgr.log)
  {
    hide Net.Valid, Retries, Events.KeepsPass, AsMap, Used, WellFormed, Events.RowsOf;
    LinkedSwap(mgr.Table(), c, x, y, xb, yb);
    err := Rearm(mgr, c, y, x, yb, xb, POLLIN + POLLOUT);
    LinkedSwap(mgr.Table(), c, y, x, yb, xb);
  }

  /** The side has ended: its socket, context and entry go, and everything else stays as it is. */
  method EndSide(mgr: Manager, c: Conn, x: Net, ghost y: Net, ghost xb: Buf, ghost yb: Buf)
    requires mgr.Valid() && Apart(mgr, x, y) && Linked(mgr.Table(), c, x, y, xb, yb) && x.sockFd >= 0 && Ended(x)
    modifies mgr, mgr.pfds, mgr.events, x
    ensures mgr.Valid() && Apart(mgr, x, y) && Left(x) && x.coming == old(x.coming)
    ensures x.repr == old(x.repr) && y.repr == old(y.repr)
    ensures mgr.Table() == old(mgr.Table()) - {old(x.sockFd)} && -1 !in mgr.Table()
    ensures y.sockFd == old(y.sockFd) && y.sockFd != -1 ==> Linked(mgr.Table(), c, x, y, xb, yb)
    ensures Sound(x, y, xb, yb) && c !in x.repr && c !in y.repr
    ensures Events.KeepsPass(old(mgr.Rows()), old(mgr.log), mgr.Rows(), mgr.log)
  {
    hide SenderOk, PublicKey, SharedKey, AsMap, Used, Events.KeepsPass, WellFormed, Events.RowsOf, Endpoint.Shape;
    DropSide(mgr, x);
    NoNegative(mgr);
    assert y.Valid();
    assert Retries(y, yb);
  }

  lemma NotBack(m: Table, m': Table, a: int, b: int)
    requires m' - {b} == m - {b} && a !in m && a != b
    ensures a !in m'
  {
    assert a in m' - {b} <==> a in m - {b};
  }

  lemma MinusTwo(m: Table, a: int, b: int)
    ensures m - {a, b} == m - {a} - {b} == m - {b} - {a}
  {
  }

  lemma NoNegative(mgr: Manager)
    requires mgr.Valid()
    ensures -1 !in mgr.Table()
  {
    MapKeys(mgr.Rows(), -1);
  }

  lemma OwnMemory(m: Table, c: Conn, x: Net, y: Net, xb: Buf, yb: Buf)
    requires Established(m, c, x, y, xb, yb)
    ensures x in x.repr && c !in x.repr && y !in x.repr
  {
    hide Net.Valid, Retries;
  }

  /**
    `handle_recv` for side x. When it ends the connection because x ended with
    nothing pending, y has taken everything that x sent.
  */
  method HandleRecv(mgr: Manager, c: Conn, x: Net, y: Net, xb: Buf, yb: Buf)
    returns (err: int, ghost read: int)
    requires mgr.Valid() && Apart(mgr, x, y) && Established(mgr.Table(), c, x, y, xb, yb)
    requires x.sockFd >= 0 && x.Ready()
    modifies mgr, mgr.pfds, mgr.events, c, x.repr, y, yb, yb.data
    ensures mgr.Valid() && Apart(mgr, x, y)
    ensures Outcome(err, old(mgr.Table()), mgr.Table(), c, x, y, xb, yb, old(x.sockFd), old(y.sockFd))
    ensures x.repr == old(x.repr) && y.repr == old(y.repr)
    ensures xb.size == old(xb.size) && (x.sockFd >= 0 ==> x.Ready())
    ensures err == PROXY_DISCONNECT && old(y.sockFd) >= 0 ==> c.ending == c.DoneBy(x) && x.got == y.put
    ensures Recvd(old(SideOf(x, xb, yb)), SideOf(x, xb, yb), old(Now(mgr.Table(), c, x, y)),
                  Now(mgr.Table(), c, x, y), err, read, c.DoneBy(x))
    ensures Events.KeepsPass(old(mgr.Rows()), old(mgr.log), mgr.Rows(), mgr.log)
  {
    hide Net.Valid, AsMap, Used, Events.KeepsPass, WellFormed, Events.RowsOf, Answers, Ended, Retries, Sound, SideOk;
    OwnMemory(mgr.Table(), c, x, y, xb, yb);
    Events.KeepsPassRefl(mgr.Rows(), mgr.log);
    read := PROXY_SUCCESS;
    if yb.size != 0 {
      return PROXY_SUCCESS, read;
    }
    err := Receive(c, x, y, xb, yb, mgr.Table());
    read := err;
    assert mgr.Valid() && mgr.Table() == old(mgr.Table()) && mgr.Rows() == old(mgr.Rows()) && mgr.log == old(mgr.log);
    ghost var p := SideOf(x, xb, yb);
    hide *;
    err := AfterRead(mgr, c, x, y, xb, yb, err);
    assert SideOf(x, xb, yb) == p;
  }

  /** The rest of `handle_recv`, by what `buf_recv` has answered. */
  method AfterRead(mgr: Manager, c: Conn, x: Net, y: Net, xb: Buf, yb: Buf, read: int) returns (err: int)
    requires mgr.Valid() && Apart(mgr, x, y) && Linked(mgr.Table(), c, x, y, xb, yb)
    requires MaskFits(mgr.Table(), x, xb) && (yb.size == 0 ==> MaskFits(mgr.Table(), y, yb))
    requires x.sockFd >= 0 && x.Ready() && (read == PROXY_DISCONNECT ==> Ended(x))
    requires (read == PROXY_SUCCESS ==> yb.size > 0) && (read == PROXY_WOULD_BLOCK ==> yb.size == 0)
    requires read == PROXY_SUCCESS || read == PROXY_WOULD_BLOCK || read == PROXY_DISCONNECT || read == PROXY_ERR
    modifies mgr, mgr.pfds, mgr.events, c, x, y
    ensures mgr.Valid() && Apart(mgr, x, y)
    ensures Outcome(err, old(mgr.Table()), mgr.Table(), c, x, y, xb, yb, old(x.sockFd), old(y.sockFd))
    ensures x.repr == old(x.repr) && y.repr == old(y.repr) && (x.sockFd >= 0 ==> x.Ready())
    ensures Now(mgr.Table(), c, x, y)
         == Step(ReadFate(read, yb.size > 0, old(y.sockFd), c.DoneBy(x)), old(Now(mgr.Table(), c, x, y)))
    ensures err == ReadErr(read, yb.size > 0, old(y.sockFd)) && x.coming == old(x.coming)
    ensures read == PROXY_DISCONNECT && yb.size > 0 ==> Gone(x) && (err == PROXY_SUCCESS || old(y.sockFd) == -1)
    ensures err == PROXY_DISCONNECT && old(y.sockFd) >= 0 ==> c.ending == c.DoneBy(x) && x.got == y.put
    ensures Events.KeepsPass(old(mgr.Rows()), old(mgr.log), mgr.Rows(), mgr.log)
  {
    hide Net.Valid, AsMap, Used, Events.KeepsPass, WellFormed, Events.RowsOf, Retries;
    Events.KeepsPassRefl(mgr.Rows(), mgr.log);
    hide Events.EventManager.Valid;
    err := read;
    if read == PROXY_SUCCESS {
      err := PassOn(mgr, c, x, y, xb, yb);
      return;
    }
    if read == PROXY_DISCONNECT && yb.size != 0 {
      err := PassOnEnded(mgr, c, x, y, xb, yb);
      return;
    }
    if read == PROXY_WOULD_BLOCK {
      return PROXY_SUCCESS;
    }
    if read == PROXY_DISCONNECT {
      c.ending := c.DoneBy(x);
    }
    CloseConnection(mgr, c, x, y, xb, yb);
  }

  // ---------- sending ----------

  /**
    `handle_send` for side x. When it ends the connection because the other side
    has left, x has taken everything that the other side sent.
  */
  method HandleSend(mgr: Manager, c: Conn, x: Net, y: Net, xb: Buf, yb: Buf) returns (err: int, ghost written: int)
    requires mgr.Valid() && Apart(mgr, x, y) && Established(mgr.Table(), c, x, y, xb, yb)
    requires xb.size > 0 && (x.sockFd >= 0 ==> x.Ready())
    modifies mgr, mgr.pfds, mgr.events, c, x.repr, y, xb
    ensures mgr.Valid() && Apart(mgr, x, y)
    ensures Outcome(err, old(mgr.Table()), mgr.Table(), c, x, y, xb, yb, old(x.sockFd), old(y.sockFd))
    ensures x.repr == old(x.repr) && y.repr == old(y.repr)
    ensures err == PROXY_DISCONNECT && old(y.sockFd) == -1 && xb.size == 0 ==> c.ending == c.DoneBy(y) && y.got == x.put
    ensures old(x.sockFd) < 0 && !x.encrypted ==> err == PROXY_ERR
    ensures err == PROXY_SUCCESS ==> x.sockFd == old(x.sockFd)
    ensures Sent(old(SideOf(x, xb, yb)), SideOf(x, xb, yb), old(Now(mgr.Table(), c, x, y)),
                 Now(mgr.Table(), c, x, y), err, written, !x.encrypted, c.DoneBy(y))
    ensures Events.KeepsPass(old(mgr.Rows()), old(mgr.log), mgr.Rows(), mgr.log)
  {
    hide Net.Valid, AsMap, Used, Events.KeepsPass, WellFormed, Events.RowsOf, SendStopped, Retries, Sound, SideOk;
    OwnMemory(mgr.Table(), c, x, y, xb, yb);
    EstablishedFacts(mgr.Table(), c, x, y, xb, yb);
    Events.KeepsPassRefl(mgr.Rows(), mgr.log);
    err := Transmit(c, x, y, xb, yb, mgr.Table());
    written := err;
    assert mgr.Valid() && mgr.Table() == old(mgr.Table()) && mgr.Rows() == old(mgr.Rows()) && mgr.log == old(mgr.log);
    ghost var p := SideOf(x, xb, yb);
    hide *;
    err := AfterWrite(mgr, c, x, y, xb, yb, err);
    assert SideOf(x, xb, yb) == p;
  }

  /** The rest of `handle_send`, by what `buf_send` has answered. */
  method AfterWrite(mgr: Manager, c: Conn, x: Net, y: Net, xb: Buf, yb: Buf, written: int) returns (err: int)
    requires mgr.Valid() && Apart(mgr, x, y) && Linked(mgr.Table(), c, x, y, xb, yb)
    requires MaskFits(mgr.Table(), y, yb) && (xb.size > 0 ==> MaskFits(mgr.Table(), x, xb))
    requires (written == PROXY_SUCCESS <==> xb.size == 0) && (written == PROXY_SUCCESS ==> x.sockFd >= 0)
    modifies mgr, mgr.pfds, mgr.events, c, x, y
    ensures mgr.Valid() && Apart(mgr, x, y)
    ensures Outcome(err, old(mgr.Table()), mgr.Table(), c, x, y, xb, yb, old(x.sockFd), old(y.sockFd))
    ensures x.repr == old(x.repr) && y.repr == old(y.repr)
    ensures err == PROXY_DISCONNECT && old(y.sockFd) == -1 && xb.size == 0 ==> c.ending == c.DoneBy(y) && y.got == x.put
    ensures Now(mgr.Table(), c, x, y)
         == Step(SendFate(written, old(x.sockFd), old(y.sockFd), c.DoneBy(y)), old(Now(mgr.Table(), c, x, y)))
    ensures err == SendErr(written, old(y.sockFd)) && x.coming == old(x.coming)
    ensures err == PROXY_SUCCESS ==> x.sockFd == old(x.sockFd)
    ensures Events.KeepsPass(old(mgr.Rows()), old(mgr.log), mgr.Rows(), mgr.log)
  {
    hide Net.Valid, AsMap, Used, Events.KeepsPass, WellFormed, Events.RowsOf, Retries, Net.Ready;
    Events.KeepsPassRefl(mgr.Rows(), mgr.log);
    hide Events.EventManager.Valid;
    if written == PROXY_SUCCESS {
      err := AllSent(mgr, c, x, y, xb, yb);
    } else if written == PROXY_WOULD_BLOCK {
      err := PROXY_SUCCESS;
    } else {
      CloseConnection(mgr, c, x, y, xb, yb);
      err := written;
    }
  }

  /** Everything has gone to x: only reading goes on, or all ends if the other side has left. */
  method AllSent(mgr: Manager, c: Conn, x: Net, y: Net, xb: Buf, yb: Buf) returns (err: int)
    requires mgr.Valid() && Apart(mgr, x, y) && Linked(mgr.Table(), c, x, y, xb, yb)
    requires MaskFits(mgr.Table(), y, yb) && xb.size == 0 && x.sockFd >= 0
    modifies mgr, mgr.pfds, mgr.events, c, x, y
    ensures mgr.Valid() && Apart(mgr, x, y)
    ensures Outcome(err, old(mgr.Table()), mgr.Table(), c, x, y, xb, yb, old(x.sockFd), old(y.sockFd))
    ensures x.repr == old(x.repr) && y.repr == old(y.repr)
    ensures err == PROXY_DISCONNECT ==> c.ending == c.DoneBy(y) && y.got == x.put
    ensures Now(mgr.Table(), c, x, y)
         == Step(SendFate(PROXY_SUCCESS, old(x.sockFd), old(y.sockFd), c.DoneBy(y)), old(Now(mgr.Table(), c, x, y)))
    ensures err == SendErr(PROXY_SUCCESS, old(y.sockFd)) && x.coming == old(x.coming)
    ensures err == PROXY_SUCCESS ==> x.sockFd == old(x.sockFd)
    ensures Events.KeepsPass(old(mgr.Rows()), old(mgr.log), mgr.Rows(), mgr.log)
  {
    hide Net.Valid, AsMap, Used, Events.KeepsPass, WellFormed, Events.RowsOf, Retries, Net.Ready;
    if y.sockFd == -1 {
      c.ending := c.DoneBy(y);
      CloseConnection(mgr, c, x, y, xb, yb);
      return PROXY_DISCONNECT;
    }
    err := Rearm(mgr, c, x, y, xb, yb, POLLIN);
    MinusTwo(mgr.Table(), x.sockFd, y.sockFd);
    MinusTwo(old(mgr.Table()), x.sockFd, y.sockFd);
  }

  /** `buf_send` to x on an established connection. */
  method Transmit(c: Conn, x: Net, y: Net, xb: Buf, yb: Buf, ghost m: Table) returns (err: int)
    requires Established(m, c, x, y, xb, yb) && xb.size > 0 && (x.sockFd >= 0 ==> x.Ready())
    modifies x.repr, xb
    ensures Linked(m, c, x, y, xb, yb) && MaskFits(m, y, yb) && (xb.size > 0 ==> MaskFits(m, x, xb))
    ensures x.repr == old(x.repr) && y.repr == old(y.repr) && x.sockFd == old(x.sockFd) && y.sockFd == old(y.sockFd)
    ensures err == PROXY_SUCCESS <==> xb.size == 0
    ensures err == PROXY_SUCCESS ==> x.sockFd >= 0
    ensures x.sockFd < 0 && !x.encrypted ==> err == PROXY_ERR
    ensures err == PROXY_SUCCESS || err == PROXY_WOULD_BLOCK || err == PROXY_DISCONNECT || err == PROXY_ERR
    ensures x.sockFd >= 0 && err != PROXY_SUCCESS ==> SendStopped(old(x.out.sends), x.out.sends, err)
    ensures SideOf(x, xb, yb) == old(SideOf(x, xb, yb)).(sends := x.out.sends, waiting := xb.size)
  {
    hide Net.Valid, Net.Ready, Retries, Sound;
    err := WriteFrom(x, y, xb, yb);
  }

  /** `buf_send` to x, as far as the two sides and the two buffers go. */
  method WriteFrom(x: Net, y: Net, xb: Buf, yb: Buf) returns (err: int)
    requires Sound(x, y, xb, yb) && Retries(x, xb) && Retries(y, yb) && xb.size > 0
    requires if x.sockFd >= 0 then x.Ready() else Gone(x)
    modifies x.repr, xb
    ensures Sound(x, y, xb, yb) && Retries(x, xb) && Retries(y, yb) && (x.sockFd >= 0 ==> x.Ready())
    ensures x.repr == old(x.repr) && y.repr == old(y.repr) && x.sockFd == old(x.sockFd) && y.sockFd == old(y.sockFd)
    ensures x.nn == old(x.nn) && y.nn == old(y.nn) && yb.size == old(yb.size) && y.Ready() == old(y.Ready())
    ensures x.coming == old(x.coming) && Left(x) == old(Left(x)) && Left(y) == old(Left(y))
    ensures err == PROXY_SUCCESS <==> xb.size == 0
    ensures err == PROXY_SUCCESS ==> x.sockFd >= 0
    ensures x.sockFd < 0 && !x.encrypted ==> err == PROXY_ERR
    ensures err == PROXY_SUCCESS || err == PROXY_WOULD_BLOCK || err == PROXY_DISCONNECT || err == PROXY_ERR
    ensures x.sockFd >= 0 && err != PROXY_SUCCESS ==> SendStopped(old(x.out.sends), x.out.sends, err)
    ensures SideOf(x, xb, yb) == old(SideOf(x, xb, yb)).(sends := x.out.sends, waiting := xb.size)
  {
    hide Net.Valid, Net.InFlight, Net.Ready, Carries, Buf.Unsent, SendStopped;
    Parts(x);
    Parts(y);
    assert Sendable(x);
    ghost var p, lx, ly := SideOf(x, xb, yb), Left(x), Left(y);
    err := BufSend(x, xb);
    assert SideOf(x, xb, yb) == p.(sends := x.out.sends, waiting := xb.size) && Left(x) == lx && Left(y) == ly;
    hide SideOf, Left;
    assert y.Valid();
    assert yb.Unsent() == old(yb.Unsent());
  }

  // ---------- the data callback ----------

  /** A connection that is in order, or closed, freed and out of the table. */
  ghost predicate Handled(m: Table, m': Table, c: Conn, x: Net, y: Net, xb: Buf, yb: Buf, fx: int, fy: int)
    reads c, x, y, x.repr, y.repr, xb, yb, xb.data, yb.data
  {
    && m' - {fx, fy} == m - {fx, fy}
    && if c.freed then Finished(c, x, y, xb, yb) && fx !in m' && fy !in m'
       else Established(m', c, x, y, xb, yb) && Still(m', x, fx) && Still(m', y, fy)
  }

  /** Between receiving and sending: the connection, and the answers of the handlers and of the buffer loops. */
  datatype Between = Between(p: Side, s: Seen, err: int, read: int, sendErr: int, written: int)

  /** The body of `conn_callback`: what is there to read is received, and then what there is room for is sent. */
  ghost predicate Served(
      rev: Revents, p: Side, p': Side, s: Seen, s': Seen, err: int, plain: bool, xDone: Ending, yDone: Ending,
      mid: Between)
  {
    && (if rev.pollin then Recvd(p, mid.p, s, mid.s, mid.err, mid.read, xDone)
        else mid.p == p && mid.s == s && mid.err == PROXY_SUCCESS)
    && (if rev.pollout && mid.err == PROXY_SUCCESS then
          Sent(mid.p, p', mid.s, s', mid.sendErr, mid.written, plain, yDone) && err == Forgiven(mid.sendErr)
        else p' == mid.p && s' == mid.s && err == Forgiven(mid.err))
  }

  /**
    No readiness is ignored and none is invented: a readable side with room for its bytes is read, a writable one
    that is still there is written to, and what was not reported is left alone. An orderly end is not passed on.
  */
  lemma ReadinessServed(
      rev: Revents, p: Side, p': Side, s: Seen, s': Seen, err: int, plain: bool, xDone: Ending, yDone: Ending,
      mid: Between)
    requires Served(rev, p, p', s, s', err, plain, xDone, yDone, mid) && s.fx != -1 && !s.freed
    ensures rev.pollin && p.pending == 0 ==> p.recvs < p'.recvs || p'.pending > 0 || p'.noText
    ensures rev.pollout && !s'.freed && s'.fx != -1 ==> p'.waiting == 0 || p.sends < p'.sends
    ensures !rev.pollin ==> p'.recvs == p.recvs && p'.pending == p.pending
    ensures !rev.pollout ==> p'.sends == p.sends && p'.waiting == p.waiting
    ensures !rev.pollin && !rev.pollout ==> s' == s && err == PROXY_SUCCESS
    ensures p.pending > 0 && !rev.pollout ==> s' == s
    ensures err != PROXY_DISCONNECT
  {
  }

  /** An orderly end is no error. */
  function Forgiven(e: int): (err: int) {
    if e == PROXY_DISCONNECT then PROXY_SUCCESS else e
  }

  /** The body of `conn_callback` for side x: receive, then send if the connection is still there. */
  method OnReady(mgr: Manager, c: Conn, x: Net, y: Net, xb: Buf, yb: Buf, rev: Revents)
    returns (err: int, ghost mid: Between)
    requires mgr.Valid() && Apart(mgr, x, y) && Established(mgr.Table(), c, x, y, xb, yb)
    requires x.sockFd >= 0 && mgr.Table()[x.sockFd].callback == Some(ConnCb)
    requires rev.pollout ==> WantsOut(mgr.Table()[x.sockFd].mask)
    modifies mgr, mgr.pfds, mgr.events, c, x.repr, y, xb, yb, yb.data
    ensures mgr.Valid() && Apart(mgr, x, y) && x.repr == old(x.repr) && y.repr == old(y.repr)
    ensures Handled(old(mgr.Table()), mgr.Table(), c, x, y, xb, yb, old(x.sockFd), old(y.sockFd))
    ensures rev.pollout && !x.encrypted ==> c.freed || x.sockFd >= 0
    ensures Served(rev, old(SideOf(x, xb, yb)), SideOf(x, xb, yb), old(Now(mgr.Table(), c, x, y)),
                   Now(mgr.Table(), c, x, y), err, !x.encrypted, c.DoneBy(x), c.DoneBy(y), mid)
    ensures Events.KeepsPass(old(mgr.Rows()), old(mgr.log), mgr.Rows(), mgr.log)
  {
    hide Events.KeepsPass, Net.Valid, AsMap, Used, WellFormed, Events.RowsOf, Retries, Separate;
    hide Recvd, Sent, Now, SideOf;
    EstablishedFacts(mgr.Table(), c, x, y, xb, yb);
    Events.KeepsPassRefl(mgr.Rows(), mgr.log);
    err := PROXY_SUCCESS;
    ghost var read, written := PROXY_SUCCESS, PROXY_SUCCESS;
    if rev.pollin {
      err, read := HandleRecv(mgr, c, x, y, xb, yb);
    }
    mid := Between(SideOf(x, xb, yb), Now(mgr.Table(), c, x, y), err, read, PROXY_SUCCESS, PROXY_SUCCESS);
    if rev.pollout && err == PROXY_SUCCESS {
      ghost var r, l := mgr.Rows(), mgr.log;
      err, written := ThenSend(mgr, c, x, y, xb, yb, old(mgr.Table()), old(x.sockFd), old(y.sockFd));
      mid := mid.(sendErr := err, written := written);
      Events.KeepsPassTrans(old(mgr.Rows()), old(mgr.log), r, l, mgr.Rows(), mgr.log);
    }
    if err == PROXY_DISCONNECT {
      err := PROXY_SUCCESS;
    }
  }

  /** Sending after receiving, possibly on a side that receiving has just closed. */
  method ThenSend(mgr: Manager, c: Conn, x: Net, y: Net, xb: Buf, yb: Buf, ghost m: Table, ghost fx: int, ghost fy: int)
    returns (err: int, ghost written: int)
    requires mgr.Valid() && Apart(mgr, x, y) && Established(mgr.Table(), c, x, y, xb, yb)
    requires xb.size > 0 && (x.sockFd >= 0 ==> x.Ready())
    requires mgr.Table() - {fx, fy} == m - {fx, fy} && Still(mgr.Table(), x, fx) && Still(mgr.Table(), y, fy)
    modifies mgr, mgr.pfds, mgr.events, c, x.repr, y, xb
    ensures mgr.Valid() && Apart(mgr, x, y) && x.repr == old(x.repr) && y.repr == old(y.repr)
    ensures Handled(m, mgr.Table(), c, x, y, xb, yb, fx, fy)
    ensures old(x.sockFd) < 0 && !x.encrypted ==> err == PROXY_ERR && c.freed
    ensures !x.encrypted ==> c.freed || x.sockFd >= 0
    ensures Sent(old(SideOf(x, xb, yb)), SideOf(x, xb, yb), old(Now(mgr.Table(), c, x, y)),
                 Now(mgr.Table(), c, x, y), err, written, !x.encrypted, c.DoneBy(y))
    ensures Events.KeepsPass(old(mgr.Rows()), old(mgr.log), mgr.Rows(), mgr.log)
  {
    hide Events.KeepsPass, Net.Valid, AsMap, Used, WellFormed, Events.RowsOf, Net.Ready, Retries, Sent, Now, SideOf;
    EstablishedFacts(mgr.Table(), c, x, y, xb, yb);
    NoNegative(mgr);
    ghost var m1, fx1, fy1 := mgr.Table(), x.sockFd, y.sockFd;
    err, written := HandleSend(mgr, c, x, y, xb, yb);
    NoNegative(mgr);
    TwoSteps(m, m1, mgr.Table(), fx, fy, fx1, fy1);
  }

  lemma EstablishedFacts(m: Table, c: Conn, x: Net, y: Net, xb: Buf, yb: Buf)
    requires Established(m, c, x, y, xb, yb)
    ensures !c.freed && x.sockFd >= -1 && y.sockFd >= -1
    ensures x.sockFd in m && m[x.sockFd].callback == Some(ConnCb) ==>
      (x.sockFd >= 0 ==> x.Ready()) && (WantsOut(m[x.sockFd].mask) <==> xb.size > 0)
  {
    hide Net.Valid, Retries;
  }

  lemma TwoSteps(m: Table, m1: Table, m2: Table, a: int, b: int, a1: int, b1: int)
    requires m1 - {a, b} == m - {a, b} && m2 - {a1, b1} == m1 - {a1, b1}
    requires (a1 == a || (a1 == -1 && a !in m1)) && (b1 == b || (b1 == -1 && b !in m1))
    requires -1 !in m1 && -1 !in m2
    ensures m2 - {a, b} == m - {a, b}
    ensures a1 != a ==> a in m2 ==> a == b1
    ensures b1 != b ==> b in m2 ==> b == a1
  {
    assert a in m2 - {a1, b1} <==> a in m1 - {a1, b1};
    assert b in m2 - {a1, b1} <==> b in m1 - {a1, b1};
    forall k | k !in {a, b}
      ensures k in m2 - {a, b} <==> k in m - {a, b}
      ensures k in m2 ==> k in m && m2[k] == m[k]
    {
      assert k in m2 - {a1, b1} <==> k in m1 - {a1, b1};
      assert k in m1 - {a, b} <==> k in m - {a, b};
      if k in m2 {
        assert (m2 - {a1, b1})[k] == (m1 - {a1, b1})[k];
        assert (m1 - {a, b})[k] == (m - {a, b})[k];
      }
    }
  }
}
