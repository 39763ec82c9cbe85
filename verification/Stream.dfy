/**
 The byte stream as `read` delivers it, and exact-length reads rebuilt from it.
 */
module Stream {
  import opened Defs

  /** What one attempt to read finds: bytes (none of them means the peer has closed), or a failure
      (a negative result). */
  datatype ReadResult = Got(bytes: seq<uint8>) | Failed

  /** What the socket will deliver. A read that asks for less than the next chunk takes its front;
      after the last element every read finds the connection closed. */
  datatype Script = End | Then(first: ReadResult, later: Script)

  /** n is the result of read(2), `bytes` what it stored. */
  datatype OneRead = OneRead(n: int, bytes: seq<uint8>, rest: Script)

  function ReadOnce(s: Script, want: nat): (r: OneRead)
    requires want > 0
    ensures r.n <= want && (r.n >= 0 ==> |r.bytes| == r.n) && (r.n < 0 ==> r.bytes == [])
  {
    match s
    case End => OneRead(0, [], End)
    case Then(Failed, later) => OneRead(-1, [], later)
    case Then(Got(b), later) =>
      if |b| <= want then OneRead(|b|, b, later)
      else OneRead(want, b[..want], Then(Got(b[want..]), later))
  }

  /** Status, the bytes stored in the buffer, and what is left of the script. */
  datatype ReadOutcome = ReadOutcome(status: Status, bytes: seq<uint8>, rest: Script)

  /** The loop of ReadBytes with `need` bytes still to come. */
  function Collect(s: Script, need: nat): (r: ReadOutcome)
    ensures |r.bytes| <= need
    ensures r.status == Success <==> |r.bytes| == need
    decreases need
  {
    if need == 0 then ReadOutcome(Success, [], s)
    else
      var o := ReadOnce(s, need);
      if o.n < 0 then ReadOutcome(PipeBroken, [], o.rest)
      else if o.n == 0 then ReadOutcome(PipeClosed, [], o.rest)
      else
        var r := Collect(o.rest, need - o.n);
        r.(bytes := o.bytes + r.bytes)
  }

  function Prepend(got: seq<uint8>, r: ReadOutcome): ReadOutcome {
    r.(bytes := got + r.bytes)
  }

  /** CFE_SBN_Client_ReadBytes. */
  function ReadBytes(s: Script, size: nat): (r: ReadOutcome)
    ensures r.status == Success ==> |r.bytes| == size <= MAX_MESSAGE_SIZE
    ensures |r.bytes| <= size && (size > MAX_MESSAGE_SIZE ==> r.bytes == [])
  {
    if size > MAX_MESSAGE_SIZE then ReadOutcome(BadArgument, [], s) else Collect(s, size)
  }

  // ---- the stream behind the chunks ----

  predicate Stops(r: ReadResult) {
    r.Failed? || r.bytes == []
  }

  /** The elements of a script plus all its bytes: how much reading can still be done. */
  function Size(s: Script): nat {
    match s
    case End => 0
    case Then(Failed, later) => 1 + Size(later)
    case Then(Got(b), later) => 1 + |b| + Size(later)
  }

  /** All bytes that arrive before the first failure or close. */
  function Lead(s: Script): seq<uint8> {
    if s.End? || Stops(s.first) then [] else s.first.bytes + Lead(s.later)
  }

  /** The script from its first failure or close on. */
  function Stop(s: Script): (r: Script)
    ensures r.Then? ==> Stops(r.first)
    ensures Size(r) <= Size(s)
  {
    if s.End? || Stops(s.first) then s else Stop(s.later)
  }

  /** What is left after a read that runs into that failure or close. */
  function AfterStop(s: Script): Script {
    if Stop(s).End? then End else Stop(s).later
  }

  function StopStatus(s: Script): Status {
    if Stop(s).Then? && Stop(s).first.Failed? then PipeBroken else PipeClosed
  }

  lemma ReadOnceLead(s: Script, want: nat)
    requires want > 0
    ensures var o := ReadOnce(s, want);
            && (o.n > 0 <==> Lead(s) != [])
            && (o.n > 0 ==>
                  Lead(s) == o.bytes + Lead(o.rest) && Stop(o.rest) == Stop(s) && Size(o.rest) + o.n <= Size(s))
            && (o.n <= 0 ==> o.rest == AfterStop(s) && Lead(s) == [] && (o.n < 0 <==> StopStatus(s) == PipeBroken))
            && Size(o.rest) <= Size(s)
  {
    if s.Then? && s.first.Got? && |s.first.bytes| > want {
      Regroup(s.first.bytes[..want], s.first.bytes[want..], Lead(s.later));
      assert s.first.bytes == s.first.bytes[..want] + s.first.bytes[want..];
    }
  }

  /** An exact read of `need` bytes succeeds exactly when enough bytes come before the first failure
      or close; then it consumes exactly the bytes asked for. Otherwise it consumes all there are and
      what stopped them, and says which it was. */
  ghost predicate Exact(s: Script, need: nat, r: ReadOutcome) {
    if |Lead(s)| >= need then
      r.status == Success && |r.bytes| == need && Lead(s) == r.bytes + Lead(r.rest) && Stop(r.rest) == Stop(s)
    else
      r == ReadOutcome(StopStatus(s), Lead(s), AfterStop(s))
  }

  lemma ExactMore(s: Script, need: nat, bytes: seq<uint8>, s': Script, r: ReadOutcome)
    requires Lead(s) == bytes + Lead(s') && Stop(s') == Stop(s) && |bytes| <= need
    requires Exact(s', need - |bytes|, r)
    ensures Exact(s, need, Prepend(bytes, r))
  {
    Regroup(bytes, r.bytes, Lead(r.rest));
  }

  lemma {:induction false} CollectExact(s: Script, need: nat)
    ensures Exact(s, need, Collect(s, need))
    decreases need
  {
    if need == 0 {
      EmptyBoth(Lead(s));
    } else {
      ReadOnceLead(s, need);
      var o := ReadOnce(s, need);
      if o.n > 0 {
        CollectExact(o.rest, need - o.n);
        ExactMore(s, need, o.bytes, o.rest, Collect(o.rest, need - o.n));
      }
    }
  }

  /** CFE_SBN_Client_ReadBytes returns success exactly when the size is allowed and all bytes arrive
      before any failure or close; the bytes are then the next `size` of the stream and none more is
      consumed. A refused size consumes nothing; a failed read breaks the pipe, an empty one closes it. */
  lemma ExactRead(s: Script, size: nat)
    ensures var r := ReadBytes(s, size);
            && (r.status == Success <==> size <= MAX_MESSAGE_SIZE && size <= |Lead(s)|)
            && (r.status == Success ==>
                  size <= |Lead(s)| && r.bytes == Lead(s)[..size] && Lead(r.rest) == Lead(s)[size..])
            && (r.status == BadArgument <==> size > MAX_MESSAGE_SIZE)
            && (r.status == BadArgument ==> r.rest == s)
            && (r.status == PipeBroken <==>
                  size <= MAX_MESSAGE_SIZE && |Lead(s)| < size && Stop(s).Then? && Stop(s).first == Failed)
            && (r.status == PipeClosed <==>
                  size <= MAX_MESSAGE_SIZE && |Lead(s)| < size && (Stop(s).End? || Stop(s).first == Got([])))
            && (r.status in {PipeBroken, PipeClosed} ==> r.bytes == Lead(s) && r.rest == AfterStop(s))
  {
    if size <= MAX_MESSAGE_SIZE {
      CollectExact(s, size);
    }
  }

  // ---- chunking ----

  /** The same bytes between the same failures and closes, however they are cut into chunks. */
  ghost predicate SameStream(a: Script, b: Script)
    decreases Size(a)
  {
    && Lead(a) == Lead(b)
    && (Stop(a).End? <==> Stop(b).End?)
    && (Stop(a).Then? ==> Stop(a).first == Stop(b).first && SameStream(Stop(a).later, Stop(b).later))
  }

  /** An exact read cannot tell two chunkings of the same stream apart. */
  lemma ReadBytesChunking(a: Script, b: Script, size: nat)
    requires SameStream(a, b)
    ensures var x, y := ReadBytes(a, size), ReadBytes(b, size);
            x.status == y.status && x.bytes == y.bytes && SameStream(x.rest, y.rest)
  {
    if size <= MAX_MESSAGE_SIZE {
      CollectExact(a, size);
      CollectExact(b, size);
      var x, y := Collect(a, size), Collect(b, size);
      if x.status == Success {
        assert x.bytes == Lead(a)[..size] == y.bytes;
        assert Lead(x.rest) == Lead(a)[size..] == Lead(y.rest);
      }
    }
  }

  function Concat(chunks: seq<seq<uint8>>): seq<uint8> {
    if chunks == [] then [] else chunks[0] + Concat(chunks[1..])
  }

  /** These chunks, then the end of the stream. */
  function Delivered(chunks: seq<seq<uint8>>): Script {
    if chunks == [] then End else Then(Got(chunks[0]), Delivered(chunks[1..]))
  }

  lemma {:induction false} DeliveredLead(chunks: seq<seq<uint8>>)
    requires [] !in chunks
    ensures Lead(Delivered(chunks)) == Concat(chunks) && Stop(Delivered(chunks)) == End
  {
    if chunks != [] {
      assert chunks[0] in chunks;
      DeliveredLead(chunks[1..]);
    }
  }

  lemma {:induction false} SizeShrinks(s: Script, need: nat)
    ensures Size(Collect(s, need).rest) + |Collect(s, need).bytes| <= Size(s)
    decreases need
  {
    if need > 0 {
      ReadOnceLead(s, need);
      var o := ReadOnce(s, need);
      if o.n > 0 {
        SizeShrinks(o.rest, need - o.n);
      }
    }
  }
}
