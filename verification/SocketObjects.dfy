/**
 The client's side of the socket, in place: reads into buffers, proved against the functions of
 Stream.
 */
module SocketObjects {
  import opened Defs
  import opened Stream

  /** b is `was` with these bytes written over it from position `off` on. */
  ghost predicate Written(was: seq<uint8>, b: seq<uint8>, off: nat, bytes: seq<uint8>) {
    && |b| == |was| && off + |bytes| <= |b|
    && forall k | 0 <= k < |b| :: b[k] == if off <= k < off + |bytes| then bytes[k - off] else was[k]
  }

  /** Writing more bytes right behind those already written. */
  lemma WriteMore(was: seq<uint8>, b: seq<uint8>, got: seq<uint8>, b': seq<uint8>, bytes: seq<uint8>)
    requires Written(was, b, 0, got) && Written(b, b', |got|, bytes)
    ensures Written(was, b', 0, got + bytes)
  {
  }

  lemma WrittenFront(was: seq<uint8>, b: seq<uint8>, bytes: seq<uint8>)
    requires Written(was, b, 0, bytes)
    ensures b[..|bytes|] == bytes
    ensures |bytes| == |b| ==> b == bytes
  {
  }

  class Socket {
    var script: Script

    constructor (s: Script)
      ensures script == s
    {
      script := s;
    }

    /** read(2) at an offset of a buffer. */
    method Read(buf: array<uint8>, off: nat, want: nat) returns (n: int)
      requires 0 < want && off + want <= buf.Length
      modifies this, buf
      ensures var o := ReadOnce(old(script), want);
              n == o.n && script == o.rest && Written(old(buf[..]), buf[..], off, o.bytes)
    {
      var o := ReadOnce(script, want);
      n, script := o.n, o.rest;
      forall j | 0 <= j < |o.bytes| {
        buf[off + j] := o.bytes[j];
      }
    }

    /** CFE_SBN_Client_ReadBytes: the bytes read are the front of the buffer, the rest of it is as it
        was. */
    method ReadBytes(buf: array<uint8>, size: nat) returns (status: Status)
      requires size <= MAX_MESSAGE_SIZE ==> size <= buf.Length
      modifies this, buf
      ensures var r := Stream.ReadBytes(old(script), size);
              status == r.status && script == r.rest && Written(old(buf[..]), buf[..], 0, r.bytes)
    {
      if size > MAX_MESSAGE_SIZE {
        return BadArgument;
      }
      ghost var was, r := buf[..], Collect(script, size);
      var total := 0;
      while total != size
        invariant 0 <= total <= size <= buf.Length
        invariant Reading(r, total, script, size - total, was, buf[..])
        decreases size - total
      {
        ghost var s, b := script, buf[..];
        var received := Read(buf, total, size - total);
        ReadingTurn(r, total, s, size - total, was, b, buf[..]);
        if received < 0 {
          return PipeBroken;
        } else if received == 0 {
          return PipeClosed;
        }
        total := total + received;
      }
      return Success;
    }
  }

  /** ReadBytes, whose outcome will be r, has stored the first `total` of its bytes, and the rest of r is
      what reading `need` more from script s gives. */
  ghost predicate Reading(r: ReadOutcome, total: nat, s: Script, need: nat, was: seq<uint8>, b: seq<uint8>) {
    var q := Collect(s, need);
    && r.status == q.status && r.rest == q.rest
    && total <= |r.bytes| <= |was| && r.bytes[total..] == q.bytes
    && |b| == |was| && forall k | 0 <= k < |b| :: b[k] == if k < total then r.bytes[k] else was[k]
  }

  lemma ReadingTurn(r: ReadOutcome, total: nat, s: Script, need: nat, was: seq<uint8>, b: seq<uint8>, b': seq<uint8>)
    requires Reading(r, total, s, need, was, b) && need > 0
    requires Written(b, b', total, ReadOnce(s, need).bytes)
    ensures var o := ReadOnce(s, need);
            if o.n > 0 then Reading(r, total + o.n, o.rest, need - o.n, was, b')
            else
              && r == ReadOutcome(if o.n < 0 then PipeBroken else PipeClosed, r.bytes, o.rest)
              && Written(was, b', 0, r.bytes)
  {
    var o := ReadOnce(s, need);
    if o.n > 0 {
      var q := Collect(o.rest, need - o.n);
      SplitBack(o.bytes, q.bytes);
      assert r.bytes[total + o.n..] == r.bytes[total..][o.n..] == q.bytes;
      assert forall k | total <= k < total + o.n :: r.bytes[k] == r.bytes[total..][k - total] == o.bytes[k - total];
    }
  }
}
