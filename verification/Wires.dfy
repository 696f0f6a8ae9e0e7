/**
  A byte stream between two endpoints. The operating system decides how much
  of each request it serves; every choice it may make is a possible outcome.
*/
module Wires {
  import opened Bits
  import opened StreamSpec

  /** What a `send` or `recv` came back with: errno is part of the outcome, EPIPE and ECONNRESET are `reset`. */
  datatype Io = Moved(n: nat) | Blocked | Closed | Failed(reset: bool)

  /** The latest of a history of outcomes. */
  function Last(h: seq<Io>): (r: Io) {
    if h == [] then Moved(0) else h[|h| - 1]
  }

  class Wire {
    /** Everything the writer has handed over so far. */
    var sent: seq<u8>
    /** How much of it the reader has taken. */
    var taken: nat
    /** The outcomes of all calls of `recv` and of `send`; errno is in the last one. */
    var recvs: seq<Io>
    var sends: seq<Io>

    ghost predicate Valid()
      reads this
    {
      taken <= |sent|
    }

    ghost function Pending(): (r: seq<u8>)
      requires Valid()
      reads this
    {
      sent[taken..]
    }

    constructor ()
      ensures Valid() && sent == [] && taken == 0 && recvs == [] && sends == []
    {
      sent, taken, recvs, sends := [], 0, [], [];
    }

    /** `send`: takes at least one byte, or nothing. */
    method Write(data: array<u8>, pos: nat, len: nat) returns (r: Io)
      requires Valid() && pos + len <= data.Length && len > 0
      modifies this`sent, this`sends
      ensures Valid()
      ensures r.Moved? ==> 1 <= r.n <= len && sent == old(sent) + data[pos..pos + r.n]
      ensures !r.Moved? ==> sent == old(sent)
      ensures sends == old(sends) + [r] && !r.Closed?
    {
      var some: bool, blocked: bool, reset: bool := *, *, *;
      r := if blocked then Blocked else Failed(reset);
      if some {
        var n: nat :| 1 <= n <= len;
        sent := sent + data[pos..pos + n];
        r := Moved(n);
      }
      sends := sends + [r];
    }

    /** `recv`: hands out at least one byte, in order, or nothing; end of stream only when empty. */
    method Read(buf: array<u8>, pos: nat, len: nat) returns (r: Io)
      requires Valid() && pos + len <= buf.Length && len > 0
      modifies this`taken, this`recvs, buf
      ensures Valid()
      ensures r.Moved? ==> 1 <= r.n <= len && taken == old(taken) + r.n
      ensures r.Moved? ==> buf[..] == Put(old(buf[..]), pos, sent[old(taken)..taken])
      ensures !r.Moved? ==> taken == old(taken) && buf[..] == old(buf[..])
      ensures r.Closed? ==> taken == |sent|
      ensures recvs == old(recvs) + [r]
    {
      var some: bool, hungUp: bool, blocked: bool, reset: bool := *, *, *, *;
      r := if taken == |sent| && hungUp then Closed else if blocked then Blocked else Failed(reset);
      if taken < |sent| && some {
        var n: nat :| 1 <= n <= len && taken + n <= |sent|;
        var i := 0;
        while i < n
          invariant 0 <= i <= n && taken == old(taken) && recvs == old(recvs)
          invariant forall k :: pos <= k < pos + i ==> buf[k] == sent[taken + k - pos]
          invariant forall k :: 0 <= k < pos || pos + i <= k < buf.Length ==> buf[k] == old(buf[k])
        {
          buf[pos + i] := sent[taken + i];
          i := i + 1;
        }
        taken := taken + n;
        r := Moved(n);
      }
      recvs := recvs + [r];
    }

    /** The receive loops of netnacl.c: read until buf[from..to] is full or the wire gives nothing. */
    method Fill(buf: array<u8>, from: nat, to: nat) returns (pos: nat, r: Io)
      requires Valid() && from < to <= buf.Length
      modifies this`taken, this`recvs, buf
      ensures Valid()
      ensures from <= pos <= to && taken == old(taken) + (pos - from)
      ensures buf[..] == Put(old(buf[..]), from, sent[old(taken)..taken])
      ensures r.Moved? <==> pos == to
      ensures r.Closed? ==> taken == |sent|
      ensures old(recvs) < recvs && Last(recvs) == r
    {
      hide Put;
      pos, r := from, Moved(0);
      PutNothing(buf[..], from);
      assert sent[old(taken)..taken] == [];
      while pos < to
        invariant Valid() && from <= pos <= to && taken == old(taken) + (pos - from)
        invariant buf[..] == Put(old(buf[..]), from, sent[old(taken)..taken])
        invariant r.Moved? && old(recvs) <= recvs && (from < pos ==> old(recvs) < recvs && Last(recvs) == r)
      {
        ghost var t, done := taken, sent[old(taken)..taken];
        r := Read(buf, pos, to - pos);
        if !r.Moved? {
          return;
        }
        pos := pos + r.n;
        PutPut(old(buf[..]), from, done, sent[t..taken]);
        assert done + sent[t..taken] == sent[old(taken)..taken];
      }
    }

    /** The send loops: write data[from..to] until all is taken or the wire takes nothing. */
    method Drain(data: array<u8>, from: nat, to: nat) returns (pos: nat, r: Io)
      requires Valid() && from < to <= data.Length
      modifies this`sent, this`sends
      ensures Valid()
      ensures from <= pos <= to && sent == old(sent) + data[from..pos]
      ensures r.Moved? <==> pos == to
      ensures old(sends) < sends && Last(sends) == r && !r.Closed?
    {
      pos, r := from, Moved(0);
      assert data[from..from] == [];
      while pos < to
        invariant Valid() && from <= pos <= to && sent == old(sent) + data[from..pos]
        invariant r.Moved? && old(sends) <= sends && (from < pos ==> old(sends) < sends && Last(sends) == r)
      {
        r := Write(data, pos, to - pos);
        if !r.Moved? {
          return;
        }
        assert data[from..pos] + data[pos..pos + r.n] == data[from..pos + r.n];
        pos := pos + r.n;
      }
    }
  }

  lemma PutNothing(s: seq<u8>, pos: nat)
    requires pos <= |s|
    ensures Put(s, pos, []) == s
  {
  }
}
