/** event.c: the event manager and one dispatch pass over it. */
module Events {
  import opened Errors
  import opened Arith
  import opened Bits
  import opened EventRows

  const MAX_EVENTS: nat := 512

  datatype PollFd = PollFd(fd: int, events: int, revents: int)
  datatype Event<C, D> = Event(callback: Option<C>, data: Option<D>, fd: int)

  /** What happens to a descriptor during a pass. */
  datatype Act = Fired(fd: int) | Touched(fd: int)

  ghost function Fds(log: seq<Act>): (r: set<int>) {
    set a | a in log :: a.fd
  }

  /** A callback only fires for a descriptor that nothing happened to before it in the log. */
  ghost predicate OncePer(log: seq<Act>) {
    forall i, j :: 0 <= i < j < |log| && log[j].Fired? ==> log[i].fd != log[j].fd
  }

  /** From slot idx on, no poll result is left for a descriptor that already occurs in the log. */
  ghost predicate Quiet<C, D>(rows: seq<Row<C, D>>, idx: nat, log: seq<Act>) {
    forall i :: idx <= i < |rows| && rows[i].revents != 0 ==> rows[i].fd !in Fds(log)
  }

  /** The POLLOUT bit. */
  predicate Out(bits: int) {
    bits / 4 % 2 == 1
  }

  /** POLLOUT is only reported where it was asked for. */
  ghost predicate Asked<C, D>(rows: seq<Row<C, D>>) {
    forall i :: 0 <= i < |rows| && Out(rows[i].revents) ==> Out(rows[i].mask)
  }

  /** What a callback is called with, as far as anything depends on it; `trouble` is POLLERR or POLLHUP. */
  datatype Revents = Revents(pollin: bool, pollout: bool, trouble: bool, nval: bool)

  function Decode(bits: int): (r: Revents) {
    Revents(bits % 2 == 1, Out(bits), bits / 8 % 2 == 1 || bits / 16 % 2 == 1, bits / 32 % 2 == 1)
  }

  /** The four answers are the tests of POLLIN, POLLOUT, POLLERR or POLLHUP, and POLLNVAL with `&`. */
  lemma DecodeTests(bits: nat)
    ensures var r := Decode(bits);
            && (r.pollin <==> And(1, bits) != 0) && (r.pollout <==> And(4, bits) != 0)
            && (r.trouble <==> And(8 + 16, bits) != 0) && (r.nval <==> And(32, bits) != 0)
  {
    hide And, Pow2;
    LowBits(bits);
    LowBits(bits / 4);
    LowBits(bits / 8);
    LowBits(bits / 32);
    Shifted(bits);
  }

  lemma LowBits(x: nat)
    ensures And(1, x) == x % 2 && And(3, x) == x % 4
  {
    hide And;
    assert Pow2(1) == 2 && Pow2(2) == 4;
    AndMask(x, 1);
    AndMask(x, 2);
  }

  lemma Shifted(x: nat)
    ensures And(4, x) == 4 * And(1, x / 4) && And(24, x) == 8 * And(3, x / 8) && And(32, x) == 32 * And(1, x / 32)
    ensures x / 8 % 4 == 0 <==> x / 8 % 2 == 0 && x / 16 % 2 == 0
  {
    hide And;
    FourTimes(1, x);
    AndDouble(12, x);
    FourTimes(3, x / 2);
    assert x / 2 / 4 == x / 8 && x / 16 == x / 8 / 2;
    AndDouble(16, x);
    FourTimes(4, x / 2);
    FourTimes(1, x / 8);
    assert x / 8 / 4 == x / 32;
  }

  lemma FourTimes(m: nat, x: nat)
    ensures And(4 * m, x) == 4 * And(m, x / 4)
  {
    hide And;
    AndDouble(2 * m, x);
    AndDouble(m, x / 2);
  }

  /** A call of a callback. */
  datatype Called<C, D> = Called(fd: int, rev: Revents, callback: Option<C>, data: Option<D>)

  /** The calls of callbacks; every callback adds itself when it begins. */
  class Trace<C, D> {
    ghost var calls: seq<Called<C, D>>
    /** How many turns the loop has made. */
    ghost var passes: nat

    constructor ()
      ensures calls == [] && passes == 0
    {
      calls, passes := [], 0;
    }

    /** A callback has been entered. */
    method Enter(ghost fd: int, ghost rev: Revents, ghost callback: C, ghost data: Option<D>)
      modifies this`calls
      ensures calls == old(calls) + [Called(fd, rev, Some(callback), data)]
    {
      calls := calls + [Called(fd, rev, Some(callback), data)];
    }
  }

  /** The call that is due for a row. */
  ghost function DueCall<C, D>(row: Row<C, D>): (r: Called<C, D>) {
    Called(row.fd, Decode(row.revents), row.callback, row.data)
  }

  ghost function DueCalls<C, D>(polled: seq<Row<C, D>>, slots: seq<nat>): (r: seq<Called<C, D>>)
  {
    seq(|slots|, k requires 0 <= k < |slots| =>
      if slots[k] < |polled| then DueCall(polled[slots[k]]) else Called(-1, Decode(0), None, None))
  }

  /** Slots below idx for which `poll` has reported something, in order and each once. */
  ghost predicate Rising<C, D>(polled: seq<Row<C, D>>, slots: seq<nat>, idx: nat) {
    && (forall k :: 0 <= k < |slots| ==> slots[k] < |polled| && slots[k] < idx && polled[slots[k]].revents != 0)
    && (forall k, l :: 0 <= k < l < |slots| ==> slots[k] < slots[l])
  }

  /** What a callback may do to the rows: some are changed and lose their poll result, all others stay. */
  ghost predicate KeepsPass<C, D>(rows: seq<Row<C, D>>, log: seq<Act>, rows': seq<Row<C, D>>, log': seq<Act>) {
    && log <= log' && (forall k :: |log| <= k < |log'| ==> log'[k].Touched?)
    && (forall i :: 0 <= i < |rows'| && rows'[i].revents != 0 ==>
          && i < |rows| && rows'[i] == rows[i]
          && forall k :: |log| <= k < |log'| ==> log'[k].fd != rows'[i].fd)
    && (forall i :: 0 <= i < |rows| && rows[i].revents != 0 ==>
          (i < |rows'| && rows'[i] == rows[i]) || Touched(rows[i].fd) in log')
  }

  /** The row was called, or was changed before its turn came, or still waits for its turn. */
  ghost predicate Accounted<C, D>(
      polled: seq<Row<C, D>>, rows: seq<Row<C, D>>, log: seq<Act>, slots: seq<nat>, idx: nat, i: nat)
    requires i < |polled|
  {
    || Touched(polled[i].fd) in log
    || if i < idx then i in slots && Fired(polled[i].fd) in log else i < |rows| && rows[i] == polled[i]
  }

  /** A pass over what `poll` has reported has got to slot idx, and the slots `slots` have been served. */
  ghost predicate Midway<C, D>(
      polled: seq<Row<C, D>>, rows: seq<Row<C, D>>, log: seq<Act>, slots: seq<nat>, idx: nat)
  {
    && OncePer(log) && Quiet(rows, idx, log) && Rising(polled, slots, idx)
    && (forall i :: idx <= i < |rows| && rows[i].revents != 0 ==> i < |polled| && rows[i] == polled[i])
    && (forall i :: 0 <= i < |polled| && polled[i].revents != 0 ==> Accounted(polled, rows, log, slots, idx, i))
  }

  lemma MidwayKeeps<C, D>(
      polled: seq<Row<C, D>>, rows: seq<Row<C, D>>, log: seq<Act>, rows': seq<Row<C, D>>, log': seq<Act>,
      slots: seq<nat>, idx: nat)
    requires Midway(polled, rows, log, slots, idx) && KeepsPass(rows, log, rows', log')
    ensures Midway(polled, rows', log', slots, idx)
  {
    hide Rising;
    LogGrows(log, log');
    QuietKeeps(rows, log, rows', log', idx);
    forall i | 0 <= i < |polled| && polled[i].revents != 0
      ensures Accounted(polled, rows', log', slots, idx, i)
    {
      assert Accounted(polled, rows, log, slots, idx, i);
    }
  }

  lemma LogGrows(log: seq<Act>, log': seq<Act>)
    requires log <= log' && forall k :: |log| <= k < |log'| ==> log'[k].Touched?
    ensures OncePer(log) ==> OncePer(log')
    ensures forall a :: a in log ==> a in log'
  {
  }

  lemma QuietKeeps<C, D>(rows: seq<Row<C, D>>, log: seq<Act>, rows': seq<Row<C, D>>, log': seq<Act>, idx: nat)
    requires Quiet(rows, idx, log) && KeepsPass(rows, log, rows', log')
    ensures Quiet(rows', idx, log')
  {
    FdsSplit(log, log');
  }

  lemma FdsSplit(log: seq<Act>, log': seq<Act>)
    requires log <= log'
    ensures Fds(log') == Fds(log) + set k | |log| <= k < |log'| :: log'[k].fd
  {
    assert forall k :: 0 <= k < |log| ==> log'[k] == log[k];
    assert forall k :: 0 <= k < |log| ==> log[k] in log;
  }

  /** Slot idx is served, or there is nothing to serve in it. */
  lemma MidwayStep<C, D>(
      polled: seq<Row<C, D>>, rows: seq<Row<C, D>>, log: seq<Act>, slots: seq<nat>, idx: nat, due: bool)
    requires Midway(polled, rows, log, slots, idx) && WellFormed(rows) && idx < |rows|
    requires due <==> rows[idx].revents != 0
    ensures due ==> idx < |polled| && rows[idx] == polled[idx]
    ensures Midway(polled, rows, if due then log + [Fired(rows[idx].fd)] else log,
                   if due then slots + [idx] else slots, idx + 1)
  {
    hide OncePer, Quiet, Rising, Accounted;
    var log', slots' := if due then log + [Fired(rows[idx].fd)] else log, if due then slots + [idx] else slots;
    if due {
      QuietFire(rows, idx, log);
    } else {
      QuietSkip(rows, idx, log);
    }
    RisingStep(polled, slots, idx, due);
    forall i | 0 <= i < |polled| && polled[i].revents != 0
      ensures Accounted(polled, rows, log', slots', idx + 1, i)
    {
      AccountedStep(polled, rows, log, slots, idx, due, i);
    }
  }

  lemma AccountedStep<C, D>(
      polled: seq<Row<C, D>>, rows: seq<Row<C, D>>, log: seq<Act>, slots: seq<nat>, idx: nat, due: bool, i: nat)
    requires i < |polled| && polled[i].revents != 0 && idx < |rows| && (due <==> rows[idx].revents != 0)
    requires Accounted(polled, rows, log, slots, idx, i)
    ensures Accounted(polled, rows, if due then log + [Fired(rows[idx].fd)] else log,
                      if due then slots + [idx] else slots, idx + 1, i)
  {
    var log', slots' := if due then log + [Fired(rows[idx].fd)] else log, if due then slots + [idx] else slots;
    assert due ==> log'[|log|] == Fired(rows[idx].fd) && slots'[|slots|] == idx;
  }

  lemma QuietSkip<C, D>(rows: seq<Row<C, D>>, idx: nat, log: seq<Act>)
    requires Quiet(rows, idx, log) && OncePer(log)
    ensures Quiet(rows, idx + 1, log) && OncePer(log)
  {
  }

  lemma RisingStep<C, D>(polled: seq<Row<C, D>>, slots: seq<nat>, idx: nat, due: bool)
    requires Rising(polled, slots, idx) && (due ==> idx < |polled| && polled[idx].revents != 0)
    ensures Rising(polled, if due then slots + [idx] else slots, idx + 1)
  {
  }

  /** At the end of a pass every row that was reported on has been called, or was changed before. */
  ghost predicate AllServed<C, D>(polled: seq<Row<C, D>>, log: seq<Act>, slots: seq<nat>) {
    forall i :: 0 <= i < |polled| && polled[i].revents != 0 ==>
      (i in slots && Fired(polled[i].fd) in log) || Touched(polled[i].fd) in log
  }

  lemma MidwayEnds<C, D>(polled: seq<Row<C, D>>, rows: seq<Row<C, D>>, log: seq<Act>, slots: seq<nat>, idx: nat)
    requires Midway(polled, rows, log, slots, idx) && |rows| <= idx
    ensures AllServed(polled, log, slots) && Reported(polled) <= Fds(log)
  {
    forall i | 0 <= i < |polled| && polled[i].revents != 0
      ensures (i in slots && Fired(polled[i].fd) in log) || Touched(polled[i].fd) in log
    {
      assert Accounted(polled, rows, log, slots, idx, i);
    }
  }

  lemma KeepsPassChange<C, D>(rows: seq<Row<C, D>>, rows': seq<Row<C, D>>, log: seq<Act>, fd: int)
    requires forall i :: 0 <= i < |rows| && rows[i].fd != fd && rows[i].revents != 0 ==>
      i < |rows'| && rows'[i] == rows[i]
    requires forall i :: 0 <= i < |rows'| && rows'[i].revents != 0 ==>
      i < |rows| && rows'[i] == rows[i] && rows[i].fd != fd
    ensures KeepsPass(rows, log, rows', log + [Touched(fd)])
  {
    assert Touched(fd) in log + [Touched(fd)];
  }

  lemma FdsAppend(log: seq<Act>, a: Act)
    ensures Fds(log + [a]) == Fds(log) + {a.fd}
  {
    assert forall x :: x in log + [a] <==> x in log || x == a;
  }

  lemma AddKeepsPass<C, D>(rows: seq<Row<C, D>>, log: seq<Act>, i: int, fd: int, mask: int, c: C, d: Option<D>)
    requires WellFormed(rows) && IsIndex(rows, fd, -1) && IsIndex(rows, -1, i)
    ensures i < |rows| && KeepsPass(rows, log, Added(rows, i, fd, mask, c, d), log + [Touched(fd)])
  {
    KeepsPassChange(rows, Added(rows, i, fd, mask, c, d), log, fd);
  }

  lemma ModifyKeepsPass<C, D>(rows: seq<Row<C, D>>, log: seq<Act>, i: nat, mask: int)
    requires WellFormed(rows) && i < |rows| && rows[i].fd >= 0
    ensures KeepsPass(rows, log, Modified(rows, i, mask), log + [Touched(rows[i].fd)])
  {
    KeepsPassChange(rows, Modified(rows, i, mask), log, rows[i].fd);
  }

  lemma RemoveKeepsPass<C, D>(rows: seq<Row<C, D>>, log: seq<Act>, i: nat)
    requires WellFormed(rows) && i < |rows| && rows[i].fd >= 0
    ensures KeepsPass(rows, log, Removed(rows, i), log + [Touched(rows[i].fd)])
  {
    KeepsPassChange(rows, Removed(rows, i), log, rows[i].fd);
  }

  lemma KeepsPassRefl<C, D>(rows: seq<Row<C, D>>, log: seq<Act>)
    ensures KeepsPass(rows, log, rows, log)
  {
  }

  lemma QuietFire<C, D>(rows: seq<Row<C, D>>, idx: nat, log: seq<Act>)
    requires Quiet(rows, idx, log) && WellFormed(rows) && idx < |rows| && rows[idx].revents != 0 && OncePer(log)
    ensures Quiet(rows, idx + 1, log + [Fired(rows[idx].fd)]) && OncePer(log + [Fired(rows[idx].fd)])
  {
    FdsAppend(log, Fired(rows[idx].fd));
    assert forall i :: 0 <= i < |log| ==> log[i].fd in Fds(log);
  }

  ghost function RowsOf<C, D>(p: seq<PollFd>, e: seq<Event<C, D>>, n: nat): (s: seq<Row<C, D>>)
    requires n <= |p| && n <= |e|
    ensures |s| == n
  {
    seq(n, i requires 0 <= i < n => Row(p[i].fd, p[i].events, p[i].revents, e[i].callback, e[i].data))
  }

  /** The descriptors that `poll` has reported on. */
  ghost function Reported<C, D>(polled: seq<Row<C, D>>): (r: set<int>) {
    set i | 0 <= i < |polled| && polled[i].revents != 0 :: polled[i].fd
  }

  class EventManager<C, D> {
    const pfds: array<PollFd>
    const events: array<Event<C, D>>
    var maxIdx: nat
    var numEvents: nat
    /** The calls of callbacks and the changes of registrations in this pass, in order. */
    ghost var log: seq<Act>
    /** All calls of callbacks there ever were, as the callbacks tell. */
    const trace: Trace<C, D>

    constructor ()
      ensures Valid() && fresh(pfds) && fresh(events) && fresh(trace) && Rows() == [] && log == []
      ensures trace.calls == [] && trace.passes == 0
    {
      pfds := new PollFd[513](_ => PollFd(0, 0, 0));
      events := new Event<C, D>[513](_ => Event(None, None, 0));
      trace := new Trace();
      maxIdx, numEvents, log := 0, 0, [];
    }

    /** The slots in use, both arrays side by side. */
    ghost function Rows(): (s: seq<Row<C, D>>)
      requires maxIdx <= 513 && pfds.Length == 513 && events.Length == 513
      reads this, pfds, events
      ensures |s| == maxIdx
    {
      RowsOf(pfds[..], events[..], maxIdx)
    }

    ghost predicate Valid()
      reads this, pfds, events
    {
      && pfds.Length == 513 && events.Length == 513
      && maxIdx <= 512 && Agree()
      && WellFormed(Rows())
      && numEvents == Used(Rows())
    }

    /** The arrays name the same descriptors, and no poll result waits beyond the last slot. */
    ghost predicate Agree()
      requires pfds.Length == 513 && events.Length == 513
      reads this, pfds, events
    {
      && (forall i :: 0 <= i < maxIdx && i < 513 ==> events[i].fd == pfds[i].fd)
      && (forall i :: maxIdx <= i < 513 ==> pfds[i].revents == 0)
    }

    ghost function Table(): (r: map<int, Entry<C, D>>)
      requires maxIdx <= 513 && pfds.Length == 513 && events.Length == 513
      reads this, pfds, events
    {
      AsMap(Rows())
    }

    /** `get_idx_from_fd` and the search for a free slot are the same scan. */
    method FindSlot(fd: int) returns (i: int)
      requires Valid()
      ensures -1 <= i < maxIdx && IsIndex(Rows(), fd, i)
    {
      i := 0;
      while i < maxIdx
        invariant 0 <= i <= maxIdx
        invariant forall k :: 0 <= k < i ==> Rows()[k].fd != fd
      {
        if pfds[i].fd == fd {
          return;
        }
        i := i + 1;
      }
      i := -1;
    }

    method Add(efd: int, mask: int, data: Option<D>, callback: Option<C>) returns (err: int)
      requires Valid()
      modifies this, pfds, events
      ensures Valid()
      ensures efd >= 0 && mask != 0 && callback.Some? ==>
        err == if efd in old(Table()) then PROXY_ERR
               else if |old(Table())| == MAX_EVENTS then PROXY_MAX_EVENTS else PROXY_SUCCESS
      ensures efd < 0 || mask == 0 || callback.None? ==> err == PROXY_ERR
      ensures err == PROXY_SUCCESS ==> Table() == old(Table())[efd := Entry(mask, callback, data)]
      ensures err == PROXY_SUCCESS ==> log == old(log) + [Touched(efd)]
      ensures KeepsPass(old(Rows()), old(log), Rows(), log)
      ensures err != PROXY_SUCCESS ==> Rows() == old(Rows()) && log == old(log)
    {
      KeepsPassRefl(Rows(), log);
      if efd < 0 || mask == 0 || callback.None? {
        return PROXY_ERR;
      }
      hide AsMap, Used, WellFormed, KeepsPass;
      ghost var rows := Rows();
      UsedIsCardWf(rows);
      MapHas(rows, efd);
      var dup := FindSlot(efd);
      if dup >= 0 {
        return PROXY_ERR;
      }
      if numEvents == MAX_EVENTS {
        return PROXY_MAX_EVENTS;
      }
      var found := FindSlot(-1);
      AddRefines(rows, found, efd, mask, callback.value, data);
      Insert(found, efd, mask, data, callback.value);
      AddKeepsPass(rows, old(log), found, efd, mask, callback.value, data);
      return PROXY_SUCCESS;
    }

    /** The second half of `event_add`: the first free slot, or the one after the last. */
    method Insert(found: int, efd: int, mask: int, data: Option<D>, callback: C)
      requires pfds.Length == 513 && events.Length == 513 && found < maxIdx <= 512
      requires found < 0 ==> maxIdx < 512
      requires Agree()
      modifies this, pfds, events
      ensures Agree() && maxIdx == old(maxIdx) + (if found < 0 then 1 else 0)
      ensures Rows() == Added(old(Rows()), found, efd, mask, callback, data)
      ensures numEvents == old(numEvents) + 1 && log == old(log) + [Touched(efd)]
    {
      var i := found;
      if found < 0 {
        i := maxIdx;
        maxIdx := maxIdx + 1;
      }
      numEvents := numEvents + 1;
      pfds[i] := pfds[i].(fd := efd, events := mask);
      events[i] := Event(Some(callback), data, efd);
      log := log + [Touched(efd)];
    }

    method Modify(efd: int, mask: int) returns (err: int)
      requires Valid()
      modifies this`log, pfds, events
      ensures Valid()
      ensures err == if efd >= 0 && mask != 0 && efd in old(Table()) then PROXY_SUCCESS else PROXY_ERR
      ensures err == PROXY_SUCCESS ==>
        Table() == old(Table())[efd := old(Table())[efd].(mask := mask)] && log == old(log) + [Touched(efd)]
      ensures KeepsPass(old(Rows()), old(log), Rows(), log)
      ensures err != PROXY_SUCCESS ==> Rows() == old(Rows()) && log == old(log)
    {
      hide AsMap, Used, WellFormed, KeepsPass;
      KeepsPassRefl(Rows(), log);
      if efd < 0 || mask == 0 {
        return PROXY_ERR;
      }
      ghost var rows := Rows();
      MapHas(rows, efd);
      var i := FindSlot(efd);
      if i == -1 {
        return PROXY_ERR;
      }
      ModifyRefines(rows, i, mask);
      Update(i, efd, mask);
      ModifyKeepsPass(rows, old(log), i, mask);
      return PROXY_SUCCESS;
    }

    /** The second half of `event_modify`: a poll result from before is forgotten. */
    method Update(i: nat, efd: int, mask: int)
      requires pfds.Length == 513 && events.Length == 513 && i < maxIdx <= 512 && Agree() && pfds[i].fd == efd
      modifies this`log, pfds, events
      ensures Agree() && Rows() == Modified(old(Rows()), i, mask) && log == old(log) + [Touched(efd)]
    {
      pfds[i] := PollFd(efd, mask, 0);
      events[i] := events[i].(fd := efd);
      log := log + [Touched(efd)];
    }

    method Remove(efd: int) returns (err: int)
      requires Valid()
      modifies this, pfds, events
      ensures Valid()
      ensures err == if efd in old(Table()) then PROXY_SUCCESS else PROXY_ERR
      ensures err == PROXY_SUCCESS ==> Table() == old(Table()) - {efd} && log == old(log) + [Touched(efd)]
      ensures KeepsPass(old(Rows()), old(log), Rows(), log)
      ensures err != PROXY_SUCCESS ==> Rows() == old(Rows()) && log == old(log)
    {
      hide AsMap, Used, WellFormed, KeepsPass;
      KeepsPassRefl(Rows(), log);
      ghost var rows := Rows();
      if efd < 0 {
        MapKeys(rows, efd);
        return PROXY_ERR;
      }
      MapHas(rows, efd);
      var i := FindSlot(efd);
      if i == -1 {
        return PROXY_ERR;
      }
      RemoveRefines(rows, i);
      Free(i);
      RemoveKeepsPass(rows, old(log), i);
      return PROXY_SUCCESS;
    }

    /** The second half of `event_remove`: blank the slot, and give it up if it is the last. */
    method Free(i: nat)
      requires pfds.Length == 513 && events.Length == 513 && i < maxIdx <= 512 && Agree() && numEvents > 0
      modifies this, pfds, events
      ensures Agree() && maxIdx <= 512
      ensures Rows() == Removed(old(Rows()), i)
      ensures numEvents == old(numEvents) - 1 && log == old(log) + [Touched(old(pfds[i].fd))]
    {
      ghost var rows := Rows();
      log := log + [Touched(pfds[i].fd)];
      pfds[i] := PollFd(-1, 0, 0);
      events[i] := Event(None, None, -1);
      assert RowsOf(pfds[..], events[..], maxIdx) == rows[i := Row(-1, 0, 0, None, None)];
      if i == maxIdx - 1 {
        maxIdx := maxIdx - 1;
        assert RowsOf(pfds[..], events[..], maxIdx) == rows[..maxIdx];
      }
      numEvents := numEvents - 1;
    }

    // ---------- one dispatch pass ----------

    /** `poll` writes every `revents`: anything for a registered descriptor, zero for a hole. */
    method Poll()
      requires Valid()
      modifies pfds, this`log
      ensures Valid() && Table() == old(Table()) && log == [] && Asked(Rows()) && maxIdx == old(maxIdx)
    {
      hide AsMap, Used, WellFormed, RowsOf, SameBut;
      ghost var rows := Rows();
      SameButRefl(rows);
      var i := 0;
      while i < maxIdx
        invariant 0 <= i <= maxIdx == old(maxIdx) && Agree()
        invariant SameBut(rows, Rows())
        invariant forall k :: 0 <= k < i ==> Out(pfds[k].revents) ==> Out(pfds[k].events)
      {
        Report(i, rows);
        i := i + 1;
      }
      SameButMap(rows, Rows());
      AllAsked();
      log := [];
    }

    lemma AllAsked()
      requires maxIdx <= pfds.Length == events.Length == 513
      requires forall k :: 0 <= k < maxIdx ==> Out(pfds[k].revents) ==> Out(pfds[k].events)
      ensures Asked(Rows())
    {
    }

    /** The outcome of `poll` for one slot. */
    method Report(i: nat, ghost rows: seq<Row<C, D>>)
      requires pfds.Length == events.Length == 513 && i < maxIdx <= 512 && Agree() && SameBut(rows, Rows())
      modifies pfds
      ensures Agree() && SameBut(rows, Rows()) && (Out(pfds[i].revents) ==> Out(pfds[i].events))
      ensures forall k :: 0 <= k < 513 && k != i ==> pfds[k] == old(pfds[k])
    {
      var bits: int := *;
      if Out(bits) && !Out(pfds[i].events) {
        bits := bits - 4;
      }
      pfds[i] := pfds[i].(revents := if pfds[i].fd < 0 then 0 else bits);
    }

    /** A callback may do anything to the table that its owner's interface allows. */
    method AnyCallback(e: Event<C, D>, rev: Revents) returns (err: int)
      requires Valid() && e.callback.Some?
      modifies this, pfds, events, trace
      ensures Valid() && KeepsPass(old(Rows()), old(log), Rows(), log)
      ensures trace.calls == old(trace.calls) + [Called(e.fd, rev, e.callback, e.data)]
    {
      hide KeepsPass;
      KeepsPassRefl(Rows(), log);
      trace.Enter(e.fd, rev, e.callback.value, e.data);
      var n: nat := *;
      var j := 0;
      while j < n
        invariant Valid() && KeepsPass(old(Rows()), old(log), Rows(), log)
        invariant trace.calls == old(trace.calls) + [Called(e.fd, rev, e.callback, e.data)]
      {
        ghost var r, l := Rows(), log;
        var choice: int, fd: int, mask: int := *, *, *;
        if choice == 0 {
          var data: Option<D>, callback: Option<C> := *, *;
          err := Add(fd, mask, data, callback);
        } else if choice == 1 {
          err := Modify(fd, mask);
        } else {
          err := Remove(fd);
        }
        KeepsPassTrans(old(Rows()), old(log), r, l, Rows(), log);
        j := j + 1;
      }
      var e: int := *;
      err := e;
    }

    /** The first half of `handle_event`: which registration, if any, is called for slot idx. */
    method Next(idx: nat, ghost polled: seq<Row<C, D>>, ghost slots: seq<nat>) returns (due: bool, i: nat)
      requires Valid() && idx < maxIdx && Midway(polled, Rows(), log, slots, idx)
      modifies this`log
      ensures Valid() && Rows() == old(Rows())
      ensures due <==> pfds[idx].revents != 0
      ensures due ==> i == idx && events[i].fd == pfds[i].fd >= 0 && events[i].callback.Some?
      ensures due ==> idx < |polled| && Rows()[idx] == polled[idx]
      ensures Midway(polled, Rows(), log, if due then slots + [idx] else slots, idx + 1)
    {
      hide AsMap, Used, Midway;
      ghost var rows := Rows();
      due, i := false, 0;
      if pfds[idx].fd != -1 && pfds[idx].revents != 0 {
        var found := FindSlot(pfds[idx].fd);
        assert rows[idx].fd == pfds[idx].fd >= 0;
        assert found == idx;
        due, i := true, found;
        log := log + [Fired(events[found].fd)];
      } else {
        assert rows[idx].revents == 0;
      }
      MidwayStep(polled, rows, old(log), slots, idx, due);
    }

    /** `handle_event`, with a callback that may do anything the interface allows. */
    method HandleEvent(idx: nat, ghost polled: seq<Row<C, D>>, ghost slots: seq<nat>)
      returns (err: int, ghost slots': seq<nat>)
      requires Valid() && idx < maxIdx && Midway(polled, Rows(), log, slots, idx)
      modifies this, pfds, events, trace
      ensures Valid() && Midway(polled, Rows(), log, slots', idx + 1)
      ensures if old(Rows()[idx].revents) != 0 then
                slots' == slots + [idx] && trace.calls == old(trace.calls) + [DueCall(old(Rows()[idx]))]
              else slots' == slots && trace.calls == old(trace.calls) && err == PROXY_SUCCESS
      ensures old(Rows()[idx].revents) != 0 ==> idx < |polled| && old(Rows()[idx]) == polled[idx]
    {
      hide AsMap, Used, WellFormed, KeepsPass, Midway;
      err := PROXY_SUCCESS;
      var due, i := Next(idx, polled, slots);
      slots' := if due then slots + [idx] else slots;
      if due {
        ghost var r, l := Rows(), log;
        err := AnyCallback(events[i], Decode(pfds[i].revents));
        MidwayKeeps(polled, r, l, Rows(), log, slots', idx + 1);
      }
    }

    /** The start of a pass: nothing has happened yet, and all that is ready waits for its turn. */
    method StartPass()
      requires Valid()
      modifies pfds, this`log
      ensures Valid() && Table() == old(Table()) && Asked(Rows()) && log == []
      ensures Midway(Rows(), Rows(), log, [], 0)
    {
      hide AsMap, Used, WellFormed;
      Poll();
      assert Fds([]) == {};
      ghost var rows := Rows();
      forall i | 0 <= i < |rows| && rows[i].revents != 0
        ensures Accounted(rows, rows, [], [], 0, i)
      {
      }
    }

    /**
      One turn of `event_run_loop`. Whatever the callbacks do: callbacks are called
      for slots that `poll` has reported on, in order and each at most once, with
      what stood in the slot when `poll` came back, and only if nothing happened to
      the registration before; and when the pass completes, every slot reported on
      has been served or its registration was changed before its turn.
    */
    method Pass() returns (err: int, ghost polled: seq<Row<C, D>>, ghost slots: seq<nat>)
      requires Valid()
      modifies this, pfds, events, trace
      ensures Valid() && OncePer(log)
      ensures AsMap(polled) == old(Table()) && Asked(polled)
      ensures Rising(polled, slots, |polled|) && trace.calls == old(trace.calls) + DueCalls(polled, slots)
      ensures err == PROXY_SUCCESS ==> AllServed(polled, log, slots) && Reported(polled) <= Fds(log)
    {
      hide AsMap, Used, WellFormed, Midway, AllServed, Rising;
      StartPass();
      polled, slots := Rows(), [];
      NoneServed(polled);
      assert old(trace.calls) + [] == old(trace.calls);
      var idx := 0;
      while idx < maxIdx
        invariant Valid() && Midway(polled, Rows(), log, slots, idx) && Rising(polled, slots, |polled|) && OncePer(log)
        invariant trace.calls == old(trace.calls) + DueCalls(polled, slots)
        decreases 512 - idx
      {
        ghost var s, row := slots, Rows()[idx];
        err, slots := HandleEvent(idx, polled, slots);
        MidwaySlots(polled, Rows(), log, slots, idx + 1);
        if row.revents != 0 {
          OneMore(polled, s, idx);
        }
        if err != PROXY_SUCCESS {
          return;
        }
        idx := idx + 1;
      }
      MidwayEnds(polled, Rows(), log, slots, idx);
      err := PROXY_SUCCESS;
    }
  }

  /** The same rows apart from poll results, and none of those in a hole. */
  ghost predicate SameBut<C, D>(rows: seq<Row<C, D>>, rows': seq<Row<C, D>>) {
    && |rows'| == |rows|
    && forall i :: 0 <= i < |rows| ==>
         rows'[i] == rows[i].(revents := rows'[i].revents) && (rows[i].fd < 0 ==> rows'[i].revents == 0)
  }

  lemma SameButRefl<C, D>(rows: seq<Row<C, D>>)
    requires WellFormed(rows)
    ensures SameBut(rows, rows)
  {
  }

  lemma {:induction false} SameButMap<C, D>(rows: seq<Row<C, D>>, rows': seq<Row<C, D>>)
    requires SameBut(rows, rows')
    ensures AsMap(rows') == AsMap(rows) && Used(rows') == Used(rows)
    ensures WellFormed(rows) ==> WellFormed(rows')
  {
    if rows != [] {
      var n := |rows| - 1;
      SameButMap(rows[..n], rows'[..n]);
      assert rows'[n] == rows[n].(revents := rows'[n].revents);
    }
    if WellFormed(rows) {
      forall i, j | 0 <= i < j < |rows'| && rows'[i].fd >= 0
        ensures rows'[i].fd != rows'[j].fd
      {
        assert rows'[i].fd == rows[i].fd && rows'[j].fd == rows[j].fd;
      }
    }
  }

  lemma KeepsPassTrans<C, D>(
      r0: seq<Row<C, D>>, l0: seq<Act>, r1: seq<Row<C, D>>, l1: seq<Act>, r2: seq<Row<C, D>>, l2: seq<Act>)
    requires KeepsPass(r0, l0, r1, l1) && KeepsPass(r1, l1, r2, l2)
    ensures KeepsPass(r0, l0, r2, l2)
  {
    assert forall a :: a in l1 ==> a in l2;
  }

  lemma NoneServed<C, D>(polled: seq<Row<C, D>>)
    ensures Rising(polled, [], |polled|) && DueCalls(polled, []) == []
  {
  }

  lemma MidwaySlots<C, D>(polled: seq<Row<C, D>>, rows: seq<Row<C, D>>, log: seq<Act>, slots: seq<nat>, idx: nat)
    requires Midway(polled, rows, log, slots, idx)
    ensures Rising(polled, slots, |polled|) && OncePer(log)
  {
  }

  lemma OneMore<C, D>(polled: seq<Row<C, D>>, slots: seq<nat>, idx: nat)
    requires Rising(polled, slots, |polled|) && idx < |polled|
    ensures DueCalls(polled, slots + [idx]) == DueCalls(polled, slots) + [DueCall(polled[idx])]
  {
  }

  lemma KeepsPassAsked<C, D>(rows: seq<Row<C, D>>, log: seq<Act>, rows': seq<Row<C, D>>, log': seq<Act>)
    requires KeepsPass(rows, log, rows', log') && Asked(rows)
    ensures Asked(rows')
  {
  }
}
