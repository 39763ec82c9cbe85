/**
 What the invariant means for a user of the client: FIFO delivery over whole runs, stability of the
 message a caller holds, routing by subscription history, the allocator, and drop-tail overflow.
 */
module RunLaws {
  import opened Defs
  import opened Ring
  import opened Table
  import opened Runs

  // ---- delivery ----

  /** In every run from InitPipeTbl, over any initial memory, in which each zero-status wait on pipe i
      since its last deletion resumes with an unread message there: what was taken from the live pipe
      since its creation and then what is still unread in it is what ingest accepted for it, in order;
      and the counts balance. Waits on other pipes, and on earlier pipes of that index, may end in any
      way. */
  lemma FifoDelivery(memory: PipeTable, es: seq<Event>, i: PipeIndex)
    requires GoodSinceDeletion(Init(memory), es, i, true)
    requires Run(Init(memory), es).tbl[i].inUse == IN_USE
    ensures var s := Run(Init(memory), es);
            var p, l := s.tbl[i], s.logs[i];
            && Carries(l.taken + Unread(p), l.accepted)
            && |l.accepted| == |l.taken| + (p.num - 1)
            && Carries(l.taken, l.accepted[..|l.taken|])
  {
    InitInv(memory);
    DeliversSinceDeletion(Init(memory), es, i, true);
    var s := Run(Init(memory), es);
    var p, l := s.tbl[i], s.logs[i];
    assert forall k | 0 <= k < |l.taken| :: (l.taken + Unread(p))[k] == l.taken[k];
  }

  function Arrivals(es: seq<Event>): seq<seq<uint8>>
    decreases |es|
  {
    if es == [] then []
    else (if es[0].Arrival? then [es[0].buffer[..es[0].size]] else []) + Arrivals(es[1..])
  }

  /** `a` is what remains of `b` after deleting some of its elements. */
  ghost predicate Subsequence<T(!new)>(a: seq<T>, b: seq<T>)
    decreases |b|
  {
    if b == [] then a == []
    else
      || Subsequence(a, b[..|b| - 1])
      || (a != [] && a[|a| - 1] == b[|b| - 1] && Subsequence(a[..|a| - 1], b[..|b| - 1]))
  }

  lemma {:induction false} EmptySubsequence<T(!new)>(b: seq<T>)
    ensures Subsequence([], b)
    decreases |b|
  {
    if b != [] {
      EmptySubsequence(b[..|b| - 1]);
    }
  }

  lemma SubsequenceSnoc<T(!new)>(a: seq<T>, b: seq<T>, x: T)
    requires Subsequence(a, b)
    ensures Subsequence(a, b + [x]) && Subsequence(a + [x], b + [x])
  {
    assert (b + [x])[..|b|] == b && (a + [x])[..|a|] == a;
  }

  lemma ArrivalsCons(es: seq<Event>)
    requires es != []
    ensures Arrivals(es) == Arrivals([es[0]]) + Arrivals(es[1..])
    ensures Arrivals([es[0]]) == if es[0].Arrival? then [es[0].buffer[..es[0].size]] else []
  {
    assert Arrivals([es[0]][1..]) == [];
  }

  /** One step adds at most the message that just arrived to a pipe's accepted list. */
  lemma StepAccepts(s: State, e: Event, i: PipeIndex, before: seq<seq<uint8>>)
    requires Subsequence(s.logs[i].accepted, before)
    ensures Subsequence(Step(s, e).logs[i].accepted, before + Arrivals([e]))
  {
    var acc, acc', m := s.logs[i].accepted, Step(s, e).logs[i].accepted, Arrivals([e]);
    ArrivalsCons([e]);
    if e.Arrival? {
      ArrivalStep(s, e);
      SubsequenceSnoc(acc, before, e.buffer[..e.size]);
      assert acc' == acc || acc' == acc + [e.buffer[..e.size]];
    } else {
      assert acc' == acc || acc' == [];
      EmptyBoth(before);
      EmptySubsequence(before);
    }
  }

  lemma {:induction false} RunAccepts(s: State, es: seq<Event>, i: PipeIndex, before: seq<seq<uint8>>)
    requires Subsequence(s.logs[i].accepted, before)
    ensures Subsequence(Run(s, es).logs[i].accepted, before + Arrivals(es))
    decreases |es|
  {
    if es == [] {
      EmptyBoth(before);
    } else {
      StepAccepts(s, es[0], i, before);
      RunAccepts(Step(s, es[0]), es[1..], i, before + Arrivals([es[0]]));
      ArrivalsCons(es);
      Regroup(before, Arrivals([es[0]]), Arrivals(es[1..]));
    }
  }

  /** The messages a pipe accepted are some of those that arrived in the run, in arrival order and
      each at most once. */
  lemma AcceptedInArrivalOrder(memory: PipeTable, es: seq<Event>, i: PipeIndex)
    ensures Subsequence(Run(Init(memory), es).logs[i].accepted, Arrivals(es))
  {
    RunAccepts(Init(memory), es, i, []);
    EmptyBoth(Arrivals(es));
  }

  // ---- subscriptions and routing ----

  /** A live pipe matches a nonzero id exactly when it was subscribed since the pipe's creation. Id
      zero is the mark of an empty position: it is matched exactly while one is left. */
  lemma MatchesIffSubscribed(s: State, i: PipeIndex, id: uint16)
    requires Registry(s) && s.tbl[i].inUse == IN_USE
    ensures id != 0 ==> (id in s.tbl[i].subs <==> id in s.logs[i].subscribed)
    ensures id == 0 ==> (id in s.tbl[i].subs <==> |s.logs[i].subscribed| < 4)
  {
    var p, l := s.tbl[i], s.logs[i];
    var n := |l.subscribed|;
    assert forall k | 0 <= k < n :: p.subs[k] == l.subscribed[k];
    if n < MAX_MSG_IDS {
      assert p.subs[n] == INVALID_MSG_ID;
    }
  }

  /** Subscribe succeeds exactly on a live pipe below its limit. */
  lemma SubscribeOutcome(s: State, msgId: uint16, i: PipeIndex)
    requires Registry(s)
    ensures var r := Table.Subscribe(s.tbl, msgId, i);
            && (r.status == Success <==> s.tbl[i].inUse == IN_USE && |s.logs[i].subscribed| < 4)
            && (r.status != Success ==> r.status == BadArgument && r.tbl == s.tbl)
  {
    LookupIsIdentity(s.tbl, i);
    if s.tbl[i].inUse == IN_USE {
      SubscribeIndexIsLength(s.tbl[i], s.logs[i]);
    }
  }

  /** Subscription history over whole runs: the array of a live pipe is the list of the nonzero ids
      subscribed since its creation, in order, then empty positions; so a further subscribe lands
      behind them or, at the limit, fails. */
  lemma SubscriptionHistory(memory: PipeTable, es: seq<Event>, i: PipeIndex)
    requires Run(Init(memory), es).tbl[i].inUse == IN_USE
    ensures var s := Run(Init(memory), es);
            var ids := s.logs[i].subscribed;
            && |ids| <= 4 && 0 !in ids
            && s.tbl[i].subs == ids + seq(4 - |ids|, _ => 0)
            && SubscribeIndex(s.tbl[i]) == if |ids| < 4 then |ids| else 0xFF
  {
    InitInv(memory);
    RunKeepsRegistry(Init(memory), es);
    var s := Run(Init(memory), es);
    SubscribeIndexIsLength(s.tbl[i], s.logs[i]);
  }

  /** Live and subscribed to the id since its creation, or, for id zero, below its limit. */
  ghost predicate Wants(s: State, i: PipeIndex, id: uint16) {
    s.tbl[i].inUse == IN_USE && (id in s.logs[i].subscribed || (id == 0 && |s.logs[i].subscribed| < 4))
  }

  /** A message, whose id is its first two bytes, goes to the lowest-index pipe that wants it, if that
      pipe has room, which while its waits go well means fewer than 31 of its accepted messages are still
      to be taken. A full first subscriber drops the message even when a later subscriber has room. */
  lemma RoutingByHistory(s: State, buffer: Slot, size: MsgSize, i: PipeIndex)
    requires Registry(s)
    ensures var id := (buffer[0] as int) * 0x100 + buffer[1];
            Arrive(s.tbl, buffer, size).target == i <==>
              && Wants(s, i, id)
              && (forall j: PipeIndex | j < i :: !Wants(s, j, id))
              && s.tbl[i].num != DEPTH
    ensures Delivers(s, i) && s.tbl[i].inUse == IN_USE ==>
              (s.tbl[i].num != DEPTH <==> |s.logs[i].accepted| - |s.logs[i].taken| < 31)
  {
    var id := GetMsgId(buffer);
    forall j: PipeIndex | s.tbl[j].inUse == IN_USE
      ensures id in s.tbl[j].subs <==> Wants(s, j, id)
    {
      MatchesIffSubscribed(s, j, id);
    }
    var r := Route(s.tbl, id);
    assert r == i <==> Wants(s, i, id) && forall j: PipeIndex | j < i :: !Wants(s, j, id);
  }

  // ---- allocation ----

  lemma {:induction false} CountFull(t: seq<Pipe>)
    ensures InUseCount(t) <= |t|
    ensures InUseCount(t) == |t| <==> forall i | 0 <= i < |t| :: t[i].inUse == IN_USE
  {
    if t != [] {
      var n := |t| - 1;
      CountFull(t[..n]);
      assert forall i | 0 <= i < n :: t[..n][i] == t[i];
    }
  }

  /** Over any run the number of live pipes is the number of successful creates minus successful
      deletes, it never exceeds the table, live ids are distinct indices, and a create with valid
      arguments is refused exactly when the balance has reached the table size. */
  lemma AllocatorBalance(memory: PipeTable, es: seq<Event>, depth: uint16)
    requires 0 < depth <= DEPTH
    ensures var s := Run(Init(memory), es);
            && InUseCount(s.tbl) == s.creates - s.deletes <= 5
            && (forall i | 0 <= i < MAX_PIPES && s.tbl[i].inUse == IN_USE :: s.tbl[i].pipeId == i)
            && (CreatePipe(s.tbl, false, depth).status == MaxPipesMet <==> s.creates - s.deletes == 5)
  {
    InitInv(memory);
    RunKeepsRegistry(Init(memory), es);
    var s := Run(Init(memory), es);
    CountFull(s.tbl);
    CreateUsesAvailable(s.tbl, depth);
    assert forall i | 0 <= i < MAX_PIPES && s.tbl[i].inUse == IN_USE :: EntryOk(s.tbl[i], i);
  }

  // ---- overflow ----

  predicate ArrivalsOnly(es: seq<Event>) {
    forall k | 0 <= k < |es| :: es[k].Arrival?
  }

  /** Pipe i is neither created nor deleted on the way. */
  predicate KeepsUse(s: State, es: seq<Event>, i: PipeIndex)
    decreases |es|
  {
    es == [] || (Step(s, es[0]).tbl[i].inUse == s.tbl[i].inUse && KeepsUse(Step(s, es[0]), es[1..], i))
  }

  /** The messages among the arrivals that are routed to pipe i. */
  function RoutedTo(t: PipeTable, es: seq<Event>, i: PipeIndex): seq<seq<uint8>>
    decreases |es|
  {
    if es == [] then [] else Offered(t, es[0], i) + RoutedTo(t, es[1..], i)
  }

  function Offered(t: PipeTable, e: Event, i: PipeIndex): seq<seq<uint8>> {
    if e.Arrival? && Route(t, GetMsgId(e.buffer)) == i then [e.buffer[..e.size]] else []
  }

  /** The messages routed to pipe i, each by the table as it is when the message arrives. */
  function RoutedAlong(s: State, es: seq<Event>, i: PipeIndex): seq<seq<uint8>>
    decreases |es|
  {
    if es == [] then [] else Offered(s.tbl, es[0], i) + RoutedAlong(Step(s, es[0]), es[1..], i)
  }

  predicate RoomFor(t: PipeTable, e: Event, i: PipeIndex) {
    Offered(t, e, i) != [] ==> t[i].num != DEPTH
  }

  /** Whenever a message is routed to pipe i, the pipe is not full. */
  predicate RoomAtEach(s: State, es: seq<Event>, i: PipeIndex)
    decreases |es|
  {
    es == [] || (RoomFor(s.tbl, es[0], i) && RoomAtEach(Step(s, es[0]), es[1..], i))
  }

  /** One step, seen from pipe i: what is routed to it is accepted if there is room. */
  ghost predicate Passes(s: State, e: Event, s': State, i: PipeIndex) {
    && Registry(s') && s'.tbl[i].inUse == s.tbl[i].inUse
    && s'.logs[i].accepted == s.logs[i].accepted + (if s.tbl[i].num == DEPTH then [] else Offered(s.tbl, e, i))
    && (e.Arrival? ==> s'.logs[i].taken == s.logs[i].taken)
    && (e.Arrival? && RingOk(s.tbl[i]) ==>
          && RingOk(s'.tbl[i])
          && s'.tbl[i].num == s.tbl[i].num + if s.tbl[i].num == DEPTH then 0 else |Offered(s.tbl, e, i)|)
  }

  lemma ArrivalPasses(s: State, e: Event, i: PipeIndex)
    requires Registry(s) && e.Arrival?
    ensures Passes(s, e, Step(s, e), i) && SameRoutes(s.tbl, Step(s, e).tbl)
  {
    StepKeepsRegistry(s, e);
    ArrivalStep(s, e);
    EmptyBoth(s.logs[i].accepted);
  }

  lemma ReceivePasses(s: State, e: Event, i: PipeIndex)
    requires Registry(s) && (e.Enter? || e.Resume?)
    ensures Passes(s, e, Step(s, e), i) && SameRoutes(s.tbl, Step(s, e).tbl)
  {
    StepKeepsRegistry(s, e);
    ReceiveStep(s, e);
    EmptyBoth(s.logs[i].accepted);
  }

  lemma ManagementPasses(s: State, e: Event, i: PipeIndex)
    requires Registry(s) && (e.Create? || e.Delete? || e.Subscription?)
    requires Step(s, e).tbl[i].inUse == s.tbl[i].inUse
    ensures Passes(s, e, Step(s, e), i)
  {
    StepKeepsRegistry(s, e);
    EmptyBoth(s.logs[i].accepted);
    if e.Create? {
      CreateStep(s, e);
    } else if e.Delete? {
      DeleteStep(s, e);
    } else {
      SubscriptionStep(s, e);
    }
  }

  /** The first step of a run that neither creates nor deletes pipe i. */
  lemma PassesStep(s: State, es: seq<Event>, i: PipeIndex) returns (s': State)
    requires Registry(s) && es != [] && KeepsUse(s, es, i)
    ensures Run(s, es) == Run(s', es[1..]) && Passes(s, es[0], s', i) && KeepsUse(s', es[1..], i)
    ensures RoutedAlong(s, es, i) == Offered(s.tbl, es[0], i) + RoutedAlong(s', es[1..], i)
    ensures RoomAtEach(s, es, i) <==> RoomFor(s.tbl, es[0], i) && RoomAtEach(s', es[1..], i)
  {
    s' := Step(s, es[0]);
    match es[0]
    case Arrival(_, _) => ArrivalPasses(s, es[0], i);
    case Enter(_, _, _, _, _) => ReceivePasses(s, es[0], i);
    case Resume(_, _, _) => ReceivePasses(s, es[0], i);
    case _ => ManagementPasses(s, es[0], i);
  }

  /** Arrivals and receives, in any order. */
  predicate Traffic(es: seq<Event>) {
    forall k | 0 <= k < |es| :: es[k].Arrival? || es[k].Enter? || es[k].Resume?
  }

  /** Routing looks only at use and subscriptions. */
  ghost predicate SameRoutes(t: PipeTable, u: PipeTable) {
    forall i | 0 <= i < MAX_PIPES :: t[i].inUse == u[i].inUse && t[i].subs == u[i].subs
  }

  lemma RouteSame(t: PipeTable, u: PipeTable, id: uint16)
    requires SameRoutes(t, u)
    ensures Route(t, id) == Route(u, id)
  {
  }

  lemma {:induction false} RoutedToSame(t: PipeTable, u: PipeTable, es: seq<Event>, i: PipeIndex)
    requires SameRoutes(t, u)
    ensures RoutedTo(t, es, i) == RoutedTo(u, es, i)
    decreases |es|
  {
    if es != [] {
      if es[0].Arrival? {
        RouteSame(t, u, GetMsgId(es[0].buffer));
      }
      RoutedToSame(t, u, es[1..], i);
    }
  }

  lemma TrafficPasses(s: State, e: Event, i: PipeIndex)
    requires Registry(s) && (e.Arrival? || e.Enter? || e.Resume?)
    ensures Passes(s, e, Step(s, e), i) && SameRoutes(s.tbl, Step(s, e).tbl)
  {
    if e.Arrival? {
      ArrivalPasses(s, e, i);
    } else {
      ReceivePasses(s, e, i);
    }
  }

  /** Arrivals and receives neither create nor delete a pipe and never change the routes. */
  lemma {:induction false} TrafficKeepsRoutes(s: State, es: seq<Event>, i: PipeIndex)
    requires Registry(s) && Traffic(es)
    ensures KeepsUse(s, es, i) && RoutedAlong(s, es, i) == RoutedTo(s.tbl, es, i)
    decreases |es|
  {
    if es != [] {
      TrafficPasses(s, es[0], i);
      TrafficKeepsRoutes(Step(s, es[0]), es[1..], i);
      RoutedToSame(s.tbl, Step(s, es[0]).tbl, es[1..], i);
    }
  }

  function UpTo<T>(s: seq<T>, n: nat): seq<T> {
    if |s| <= n then s else s[..n]
  }

  /** From s to t pipe i accepted the first `routed` messages that fit, and nothing was taken. */
  ghost predicate TailDropped(s: State, t: State, i: PipeIndex, routed: seq<seq<uint8>>)
    requires RingOk(s.tbl[i])
  {
    && t.logs[i].accepted == s.logs[i].accepted + UpTo(routed, DEPTH - s.tbl[i].num)
    && t.logs[i].taken == s.logs[i].taken
  }

  lemma TailDroppedCons(s: State, e: Event, s': State, t: State, i: PipeIndex, rest: seq<seq<uint8>>)
    requires RingOk(s.tbl[i]) && e.Arrival? && Passes(s, e, s', i) && TailDropped(s', t, i, rest)
    ensures TailDropped(s, t, i, Offered(s.tbl, e, i) + rest)
  {
    var acc, x, room := s.logs[i].accepted, Offered(s.tbl, e, i), DEPTH - s.tbl[i].num;
    if x != [] && room > 0 {
      assert UpTo(x + rest, room) == x + UpTo(rest, room - 1);
      Regroup(acc, x, UpTo(rest, room - 1));
    } else {
      EmptyBoth(acc);
      EmptyBoth(rest);
    }
  }

  lemma {:induction false} AcceptsUpTo(s: State, es: seq<Event>, i: PipeIndex)
    requires Registry(s) && RingOk(s.tbl[i]) && ArrivalsOnly(es) && KeepsUse(s, es, i)
    ensures TailDropped(s, Run(s, es), i, RoutedAlong(s, es, i))
    decreases |es|
  {
    if es == [] {
      EmptyBoth(s.logs[i].accepted);
    } else {
      var s' := PassesStep(s, es, i);
      AcceptsUpTo(s', es[1..], i);
      TailDroppedCons(s, es[0], s', Run(s', es[1..]), i, RoutedAlong(s', es[1..], i));
    }
  }

  /** While nothing is received, a pipe accepts exactly the first messages routed to it, as many as
      it has free slots, and drops the rest. */
  lemma DropTail(s: State, es: seq<Event>, i: PipeIndex)
    requires Registry(s) && RingOk(s.tbl[i]) && ArrivalsOnly(es)
    ensures TailDropped(s, Run(s, es), i, RoutedTo(s.tbl, es, i))
  {
    TrafficKeepsRoutes(s, es, i);
    AcceptsUpTo(s, es, i);
  }

  /** Over any run that neither creates nor deletes it a pipe accepts every message routed to it exactly
      when it has room whenever one is; other pipes may come and go and subscriptions change. */
  lemma LosslessIffRoom(s: State, es: seq<Event>, i: PipeIndex)
    requires Registry(s) && KeepsUse(s, es, i)
    ensures Run(s, es).logs[i].accepted == s.logs[i].accepted + RoutedAlong(s, es, i) <==> RoomAtEach(s, es, i)
  {
    AcceptsWhatFits(s, es, i);
  }

  lemma {:induction false} AcceptsWhatFits(s: State, es: seq<Event>, i: PipeIndex)
    requires Registry(s) && KeepsUse(s, es, i)
    ensures var acc, acc', routed := s.logs[i].accepted, Run(s, es).logs[i].accepted, RoutedAlong(s, es, i);
            if RoomAtEach(s, es, i) then acc' == acc + routed else |acc'| < |acc| + |routed|
    decreases |es|
  {
    if es == [] {
      EmptyBoth(s.logs[i].accepted);
    } else {
      var s' := PassesStep(s, es, i);
      AcceptsWhatFits(s', es[1..], i);
      Regroup(s.logs[i].accepted, Offered(s.tbl, es[0], i), RoutedAlong(s', es[1..], i));
    }
  }

  /** Nothing lost: in such a run of a live pipe whose waits go well, what is taken and unread at the end
      is what was taken and unread at the start and then every message routed to the pipe. */
  lemma LosslessDelivery(s: State, es: seq<Event>, i: PipeIndex)
    requires Delivers(s, i) && s.tbl[i].inUse == IN_USE && KeepsUse(s, es, i)
    requires GoodRunFor(s, es, i) && RoomAtEach(s, es, i)
    ensures var s' := Run(s, es);
            Carries(s'.logs[i].taken + Unread(s'.tbl[i]), s.logs[i].accepted + RoutedAlong(s, es, i))
  {
    PipeInvariant(s, es, i);
    LosslessIffRoom(s, es, i);
    StaysLive(s, es, i);
  }

  lemma {:induction false} StaysLive(s: State, es: seq<Event>, i: PipeIndex)
    requires KeepsUse(s, es, i)
    ensures Run(s, es).tbl[i].inUse == s.tbl[i].inUse
    decreases |es|
  {
    if es != [] {
      StaysLive(Step(s, es[0]), es[1..], i);
    }
  }

  /** What is routed to a pipe is some of what arrives, in order. */
  lemma {:induction false} RoutedArrived(s: State, es: seq<Event>, i: PipeIndex)
    ensures Subsequence(RoutedAlong(s, es, i), Arrivals(es))
    decreases |es|
  {
    if es != [] {
      var x := Arrivals([es[0]]);
      RoutedArrived(Step(s, es[0]), es[1..], i);
      ArrivalsCons(es);
      SubsequenceCons(Offered(s.tbl, es[0], i), x, RoutedAlong(Step(s, es[0]), es[1..], i), Arrivals(es[1..]));
    }
  }

  /** At most one more element in front. */
  lemma {:induction false} SubsequenceCons<T(!new)>(x: seq<T>, y: seq<T>, a: seq<T>, b: seq<T>)
    requires Subsequence(a, b) && |y| <= 1 && (x == [] || x == y)
    ensures Subsequence(x + a, y + b)
    decreases |b|
  {
    if b == [] {
      EmptyBoth(x);
      EmptyBoth(y);
      if y != [] {
        assert y[..0] == [] && (x != [] ==> x[..0] == []);
      }
    } else {
      var n := |b| - 1;
      assert (y + b)[..|y + b| - 1] == y + b[..n];
      if Subsequence(a, b[..n]) {
        SubsequenceCons(x, y, a, b[..n]);
      } else {
        assert (x + a)[..|x + a| - 1] == x + a[..|a| - 1];
        SubsequenceCons(x, y, a[..|a| - 1], b[..n]);
      }
    }
  }
}
