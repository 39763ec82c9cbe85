/**
 The two halves together: the byte stream a sender produces, the receive loop that parses it, the
 pipes it fills and the receives that empty them.
 */
module EndToEnd {
  import opened Defs
  import opened Ring
  import opened Table
  import opened Runs
  import opened RunLaws
  import opened Stream
  import opened Framing
  import opened Reception

  // ---- folding the received messages into the table ----

  function IngestAll(t: PipeTable, es: seq<Event>): PipeTable
    requires ArrivalsOnly(es)
    decreases |es|
  {
    if es == [] then t else IngestAll(Arrive(t, es[0].buffer, es[0].size).tbl, es[1..])
  }

  lemma {:induction false} RunIsIngest(s: State, es: seq<Event>)
    requires ArrivalsOnly(es)
    ensures Run(s, es).tbl == IngestAll(s.tbl, es)
    decreases |es|
  {
    if es != [] {
      RunIsIngest(Step(s, es[0]), es[1..]);
    }
  }

  /** The id of a message that is long enough to have one. */
  function IdOf(m: seq<uint8>): uint16
    requires |m| >= 2
  {
    Unpack16(m[..2])
  }

  predicate HaveIds(ms: seq<seq<uint8>>) {
    forall k | 0 <= k < |ms| :: |ms[k]| >= 2
  }

  lemma ArriveSame(t: PipeTable, a: Slot, m: MsgSize, b: Slot, n: MsgSize)
    requires a[..m] == b[..n] && m >= 2
    ensures Arrive(t, a, m) == Arrive(t, b, n)
  {
    assert |a[..m]| == m == n;
    assert a[..2] == a[..m][..2] == b[..n][..2] == b[..2];
  }

  /** The pure fold: each message in turn goes to the pipe it is routed to. */
  function IngestMessages(t: PipeTable, ms: seq<seq<uint8>>): PipeTable
    requires HaveIds(ms) && forall k | 0 <= k < |ms| :: |ms[k]| <= MAX_MESSAGE_SIZE
    decreases |ms|
  {
    if ms == [] then t
    else IngestMessages(Arrive(t, Overwrite(Blank(), ms[0]), |ms[0]|).tbl, ms[1..])
  }

  /** What the receive buffer held behind the message does not matter: the table depends only on the
      message bytes. */
  lemma {:induction false} IngestByMessage(t: PipeTable, es: seq<Event>)
    requires ArrivalsOnly(es) && HaveIds(Arrivals(es))
    ensures forall k | 0 <= k < |Arrivals(es)| :: |Arrivals(es)[k]| <= MAX_MESSAGE_SIZE
    ensures IngestAll(t, es) == IngestMessages(t, Arrivals(es))
    decreases |es|
  {
    if es != [] {
      var x, m := es[0], es[0].buffer[..es[0].size];
      ArrivalsCons(es);
      SplitBack([m], Arrivals(es[1..]));
      assert |m| >= 2 by { assert Arrivals(es)[0] == m; }
      ArriveSame(t, x.buffer, x.size, Overwrite(Blank(), m), |m|);
      IngestByMessage(Arrive(t, x.buffer, x.size).tbl, es[1..]);
    }
  }

  /** A run whose steps are the arrivals of a stream of well-formed frames, cut into chunks in any way,
      leaves the table that the pure fold of the stream's application messages gives. */
  lemma StreamToTable(s: State, es: seq<Event>, input: Script, fs: seq<Frame>)
    requires forall f | f in fs :: WellFormed(f)
    requires forall f | f in fs && f.kind == APP_MSG :: |f.payload| >= CCSDS_PRIMARY_HDR_SZ
    requires Lead(input) == PackFrames(fs) && Stop(input) == End
    requires ArrivalsOnly(es) && Arrivals(es) == Receive(input, 0).apps
    ensures HaveIds(AppPayloads(fs))
    ensures forall k | 0 <= k < |AppPayloads(fs)| :: |AppPayloads(fs)[k]| <= MAX_MESSAGE_SIZE
    ensures Run(s, es).tbl == IngestMessages(s.tbl, AppPayloads(fs))
  {
    StreamMeaning(input, fs);
    PayloadsHaveIds(fs);
    IngestByMessage(s.tbl, es);
    RunIsIngest(s, es);
  }

  lemma {:induction false} PayloadsHaveIds(fs: seq<Frame>)
    requires forall f | f in fs && f.kind == APP_MSG :: |f.payload| >= CCSDS_PRIMARY_HDR_SZ
    ensures HaveIds(AppPayloads(fs))
  {
    if fs != [] {
      PayloadsHaveIds(fs[1..]);
    }
  }

  function RoutedMessages(t: PipeTable, ms: seq<seq<uint8>>, i: PipeIndex): seq<seq<uint8>>
    requires HaveIds(ms)
  {
    if ms == [] then []
    else (if Route(t, IdOf(ms[0])) == i then [ms[0]] else []) + RoutedMessages(t, ms[1..], i)
  }

  lemma {:induction false} RoutedToIsByMessage(t: PipeTable, es: seq<Event>, i: PipeIndex)
    requires HaveIds(Arrivals(es))
    ensures RoutedTo(t, es, i) == RoutedMessages(t, Arrivals(es), i)
    decreases |es|
  {
    if es != [] {
      var first, rest := Arrivals([es[0]]), Arrivals(es[1..]);
      ArrivalsCons(es);
      SplitBack(first, rest);
      assert forall k | 0 <= k < |rest| :: rest[k] == (first + rest)[|first| + k];
      RoutedToIsByMessage(t, es[1..], i);
      if es[0].Arrival? {
        var m := es[0].buffer[..es[0].size];
        assert m == Arrivals(es)[0];
        assert m[..2] == es[0].buffer[..2];
      } else {
        EmptyBoth(rest);
      }
    }
  }

  // ---- emptying a pipe ----

  function Polls(i: PipeIndex, n: nat): (es: seq<Event>)
    ensures |es| == n
    ensures forall k | 0 <= k < n :: es[k] == Enter(false, i, POLL, true, true)
  {
    if n == 0 then [] else [Enter(false, i, POLL, true, true)] + Polls(i, n - 1)
  }

  /** One poll of a pipe with an unread message, and the run of polls that goes on from there. */
  lemma PollTakes(s: State, i: PipeIndex, n: nat) returns (s': State)
    requires Delivers(s, i) && s.tbl[i].inUse == IN_USE && s.tbl[i].num >= 2 && n > 0
    ensures Run(s, Polls(i, n)) == Run(s', Polls(i, n - 1))
    ensures Delivers(s', i) && s'.tbl[i].inUse == IN_USE && s'.tbl[i].num == s.tbl[i].num - 1
    ensures var slot := s'.tbl[i].slots[s'.tbl[i].read];
            && Unread(s.tbl[i]) == [slot] + Unread(s'.tbl[i])
            && s'.logs[i].taken == s.logs[i].taken + [slot]
  {
    var e := Enter(false, i, POLL, true, true);
    StepKeepsRegistry(s, e);
    StepKeepsRing(s, e, i);
    LookupIsIdentity(s.tbl, i);
    TakeRemovesFirst(s.tbl[i]);
    s' := Step(s, e);
    assert Polls(i, n)[1..] == Polls(i, n - 1);
  }

  /** In t the first n unread messages of s have been taken from pipe i. */
  ghost predicate Polled(s: State, t: State, i: PipeIndex, n: nat)
    requires n <= |Unread(s.tbl[i])|
  {
    && Delivers(t, i) && t.tbl[i].inUse == IN_USE
    && t.tbl[i].num == s.tbl[i].num - n
    && t.logs[i].taken == s.logs[i].taken + Unread(s.tbl[i])[..n]
  }

  lemma PolledCons(s: State, s1: State, t: State, i: PipeIndex, slot: Slot, n: nat)
    requires Unread(s.tbl[i]) == [slot] + Unread(s1.tbl[i]) && 0 < n <= |Unread(s.tbl[i])|
    requires s1.tbl[i].num == s.tbl[i].num - 1 && s1.logs[i].taken == s.logs[i].taken + [slot]
    requires Polled(s1, t, i, n - 1)
    ensures Polled(s, t, i, n)
  {
    var u, u1 := Unread(s.tbl[i]), Unread(s1.tbl[i]);
    assert u[..n] == [slot] + u1[..n - 1];
    Regroup(s.logs[i].taken, [slot], u1[..n - 1]);
  }

  lemma {:induction false} PollsTake(s: State, i: PipeIndex, n: nat)
    requires Delivers(s, i) && s.tbl[i].inUse == IN_USE && n <= |Unread(s.tbl[i])|
    ensures Polled(s, Run(s, Polls(i, n)), i, n)
    decreases n
  {
    if n == 0 {
      assert s.logs[i].taken + [] == s.logs[i].taken;
      assert Polled(s, s, i, 0);
    } else {
      var s1 := PollTakes(s, i, n);
      PollsTake(s1, i, n - 1);
      PolledCons(s, s1, Run(s1, Polls(i, n - 1)), i, s1.tbl[i].slots[s1.tbl[i].read], n);
    }
  }

  // ---- from bytes to messages ----

  /** A packet SendMsg accepts. */
  predicate Sendable(m: seq<uint8>) {
    IsPacket(m) && |m| + PACKED_HDR_SZ <= MAX_MESSAGE_SIZE
  }

  predicate AllSendable(ms: seq<seq<uint8>>) {
    forall k | 0 <= k < |ms| :: Sendable(ms[k])
  }

  /** Everything SendMsg writes for these messages, one after another. */
  function SendAll(ms: seq<seq<uint8>>, cpuId: int): seq<uint8>
    requires AllSendable(ms)
  {
    if ms == [] then []
    else SendMsg(ms[0], cpuId, PACKED_HDR_SZ + |ms[0]|).frame + SendAll(ms[1..], cpuId)
  }

  function FramesOf(ms: seq<seq<uint8>>, cpuId: int): (fs: seq<Frame>)
  {
    if ms == [] then [] else [Frame(APP_MSG, cpuId % 0x1_0000_0000, ms[0])] + FramesOf(ms[1..], cpuId)
  }

  lemma {:induction false} SendAllIsFrames(ms: seq<seq<uint8>>, cpuId: int)
    requires AllSendable(ms)
    ensures var fs := FramesOf(ms, cpuId);
            && (forall f | f in fs :: WellFormed(f))
            && SendAll(ms, cpuId) == PackFrames(fs) && AppPayloads(fs) == ms
  {
    if ms != [] {
      SendIsFrame(ms[0], cpuId, PACKED_HDR_SZ + |ms[0]|);
      assert ms[0][..TotalMsgLength(ms[0])] == ms[0];
      SendAllIsFrames(ms[1..], cpuId);
      assert FramesOf(ms, cpuId)[1..] == FramesOf(ms[1..], cpuId);
      assert [ms[0]] + ms[1..] == ms;
    }
  }

  /** Whatever way the sender's bytes are cut into chunks, the receive loop delivers exactly the
      messages sent. */
  lemma SentIsReceived(ms: seq<seq<uint8>>, cpuId: int, chunks: seq<seq<uint8>>)
    requires AllSendable(ms)
    requires [] !in chunks && Concat(chunks) == SendAll(ms, cpuId)
    ensures Receive(Delivered(chunks), 0).apps == ms
  {
    SendAllIsFrames(ms, cpuId);
    DeliveredLead(chunks);
    StreamMeaning(Delivered(chunks), FramesOf(ms, cpuId));
  }

  /** Any interleaving: when the arrivals of a run are those of the receive loop on the sender's
      bytes, what each live pipe handed out and still holds are messages sent, in the order sent,
      each at most once and byte for byte. */
  lemma SentInOrder(memory: PipeTable, es: seq<Event>, ms: seq<seq<uint8>>, cpuId: int, chunks: seq<seq<uint8>>,
                    i: PipeIndex)
    requires AllSendable(ms)
    requires [] !in chunks && Concat(chunks) == SendAll(ms, cpuId)
    requires Arrivals(es) == Receive(Delivered(chunks), 0).apps
    requires GoodSinceDeletion(Init(memory), es, i, true) && Run(Init(memory), es).tbl[i].inUse == IN_USE
    ensures var s := Run(Init(memory), es);
            && Carries(s.logs[i].taken + Unread(s.tbl[i]), s.logs[i].accepted)
            && Subsequence(s.logs[i].accepted, ms)
  {
    SentIsReceived(ms, cpuId, chunks);
    FifoDelivery(memory, es, i);
    AcceptedInArrivalOrder(memory, es, i);
  }

  lemma {:induction false} ArrivalsAreGood(s: State, es: seq<Event>, i: PipeIndex)
    requires ArrivalsOnly(es)
    ensures GoodRunFor(s, es, i)
    decreases |es|
  {
    if es != [] {
      ArrivalsAreGood(Step(s, es[0]), es[1..], i);
    }
  }

  lemma CarriesTail(a: seq<Slot>, u: seq<Slot>, b: seq<seq<uint8>>, e: seq<seq<uint8>>)
    requires Carries(a + u, b + e) && |a| == |b|
    ensures Carries(u, e)
  {
    forall k | 0 <= k < |e|
      ensures e[k] <= u[k]
    {
      assert (a + u)[|a| + k] == u[k] && (b + e)[|a| + k] == e[k];
    }
  }

  /** Everything unread can be polled out, in order; then there is no message. */
  lemma Drain(s: State, i: PipeIndex, n: nat)
    requires Delivers(s, i) && s.tbl[i].inUse == IN_USE && n == |Unread(s.tbl[i])|
    ensures var s' := Run(s, Polls(i, n));
            && s'.logs[i].taken == s.logs[i].taken + Unread(s.tbl[i])
            && RcvEnter(s'.tbl, false, i, POLL, true, true).outcome == Returned(NoMessage, Null)
  {
    PollsTake(s, i, n);
    assert Unread(s.tbl[i])[..n] == Unread(s.tbl[i]);
    LookupIsIdentity(Run(s, Polls(i, n)).tbl, i);
  }

  /** A pipe with nothing unread stores the first 31 messages routed to it and hands them out
      in order. */
  lemma StoreAndForward(s: State, es: seq<Event>, i: PipeIndex)
    requires Delivers(s, i) && s.tbl[i].inUse == IN_USE && s.tbl[i].num == 1 && ArrivalsOnly(es)
    ensures var expected := UpTo(RoutedTo(s.tbl, es, i), 31);
            var s' := Run(Run(s, es), Polls(i, |expected|));
            && s.logs[i].taken <= s'.logs[i].taken
            && Carries(s'.logs[i].taken[|s.logs[i].taken|..], expected)
            && RcvEnter(s'.tbl, false, i, POLL, true, true).outcome == Returned(NoMessage, Null)
  {
    var expected, s1 := UpTo(RoutedTo(s.tbl, es, i), DEPTH - 1), Run(s, es);
    DropTail(s, es, i);
    TrafficKeepsRoutes(s, es, i);
    StaysLive(s, es, i);
    ArrivalsAreGood(s, es, i);
    PipeInvariant(s, es, i);
    CarriesTail(s.logs[i].taken, Unread(s1.tbl[i]), s.logs[i].accepted, expected);
    Drain(s1, i, |expected|);
    SplitBack(s.logs[i].taken, Unread(s1.tbl[i]));
  }

  lemma SendableHaveIds(ms: seq<seq<uint8>>)
    requires AllSendable(ms)
    ensures HaveIds(ms)
  {
    assert forall k | 0 <= k < |ms| :: Sendable(ms[k]);
  }

  /** In a run of arrivals and receives alone what is routed to a pipe along the way are the messages the
      table routes to it from the start. */
  lemma TrafficRoutesMessages(s: State, es: seq<Event>, i: PipeIndex)
    requires Registry(s) && Traffic(es) && HaveIds(Arrivals(es))
    ensures RoutedAlong(s, es, i) == RoutedMessages(s.tbl, Arrivals(es), i)
  {
    TrafficKeepsRoutes(s, es, i);
    RoutedToIsByMessage(s.tbl, es, i);
  }

  /** Nothing lost under interleaving: when the arrivals of a run are those of the sender's bytes, and a
      pipe that delivers is neither created nor deleted on the way, has room whenever a message is
      routed to it and its waits go well, then what it handed out and still holds at the end is what it
      had accepted before and then every message sent that is routed to it. */
  lemma SentIsDelivered(s: State, es: seq<Event>, ms: seq<seq<uint8>>, cpuId: int, chunks: seq<seq<uint8>>,
                        i: PipeIndex)
    requires Delivers(s, i) && s.tbl[i].inUse == IN_USE
    requires AllSendable(ms)
    requires [] !in chunks && Concat(chunks) == SendAll(ms, cpuId)
    requires KeepsUse(s, es, i) && Arrivals(es) == Receive(Delivered(chunks), 0).apps
    requires GoodRunFor(s, es, i) && RoomAtEach(s, es, i)
    ensures var s' := Run(s, es);
            Carries(s'.logs[i].taken + Unread(s'.tbl[i]), s.logs[i].accepted + RoutedAlong(s, es, i))
    ensures Subsequence(RoutedAlong(s, es, i), ms)
    ensures HaveIds(ms) && (Traffic(es) ==> RoutedAlong(s, es, i) == RoutedMessages(s.tbl, ms, i))
  {
    SentIsReceived(ms, cpuId, chunks);
    SendableHaveIds(ms);
    RoutedArrived(s, es, i);
    LosslessDelivery(s, es, i);
    if Traffic(es) {
      TrafficRoutesMessages(s, es, i);
    }
  }

  /** Bytes in, messages out: into a live pipe with nothing unread, from any state in which it
      delivers and under any chunking, the bytes sent for `ms` put exactly the first 31 messages routed to
      it; polling that often returns them in order, and the next poll finds no message. */
  lemma BytesInMessagesOut(s: State, es: seq<Event>, ms: seq<seq<uint8>>, cpuId: int, chunks: seq<seq<uint8>>,
                           i: PipeIndex)
    requires Delivers(s, i) && s.tbl[i].inUse == IN_USE && s.tbl[i].num == 1
    requires AllSendable(ms)
    requires [] !in chunks && Concat(chunks) == SendAll(ms, cpuId)
    requires ArrivalsOnly(es) && Arrivals(es) == Receive(Delivered(chunks), 0).apps
    ensures HaveIds(ms)
    ensures var expected := UpTo(RoutedMessages(s.tbl, ms, i), 31);
            var s' := Run(Run(s, es), Polls(i, |expected|));
            && s.logs[i].taken <= s'.logs[i].taken
            && Carries(s'.logs[i].taken[|s.logs[i].taken|..], expected)
            && RcvEnter(s'.tbl, false, i, POLL, true, true).outcome == Returned(NoMessage, Null)
  {
    SentIsReceived(ms, cpuId, chunks);
    SendableHaveIds(ms);
    RoutedToIsByMessage(s.tbl, es, i);
    StoreAndForward(s, es, i);
  }
}
