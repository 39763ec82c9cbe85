/**
 The receiving thread and the condition variable it waits on. The wait is not in a loop that checks
 again, the condition is shared by all pipes, and a signal that finds nobody waiting is lost: when
 does a zero-status wait end with a message to take?
 */
module WaitSafety {
  import opened Defs
  import opened Ring
  import opened Table
  import opened Runs
  import opened RunLaws
  import opened HeldMessage

  /** The one receiving thread: outside a wait, waiting, or signalled but not yet running. */
  datatype Receiver = Running | Asleep(pipe: PipeIndex) | Signalled(pipe: PipeIndex)

  datatype Threads = Threads(state: State, receiver: Receiver)

  /** Which steps can be next; there are no spurious wake-ups, but a timed wait may expire at any
      time. */
  predicate Enabled(c: Threads, e: Event) {
    match e
    case Enter(_, _, _, _, _) => c.receiver.Running?
    case Resume(pipe, wait, _) =>
      !c.receiver.Running? && c.receiver.pipe == pipe && (wait.Woken? ==> c.receiver.Signalled?)
    case _ => true
  }

  /** Enqueue and signal are one step. */
  function Next(c: Threads, e: Event): Threads {
    Threads(Step(c.state, e),
           match e
           case Enter(_, _, _, _, _) =>
             var o := ReceiveOf(c.state.tbl, e).outcome;
             if o.Waiting? then Asleep(o.pipe) else Running
           case Resume(_, _, _) => Running
           case Arrival(buffer, size) =>
             if Arrive(c.state.tbl, buffer, size).signal && c.receiver.Asleep? then Signalled(c.receiver.pipe)
             else c.receiver
           case _ => c.receiver)
  }

  predicate Possible(c: Threads, es: seq<Event>)
    decreases |es|
  {
    es == [] || (Enabled(c, es[0]) && Possible(Next(c, es[0]), es[1..]))
  }

  function RunThreads(c: Threads, es: seq<Event>): Threads
    decreases |es|
  {
    if es == [] then c else RunThreads(Next(c, es[0]), es[1..])
  }

  ghost predicate AtMostOneLive(t: PipeTable) {
    forall i, j | 0 <= i < j < MAX_PIPES :: !(t[i].inUse == IN_USE && t[j].inUse == IN_USE)
  }

  /** Never two pipes at a time, and no deletion while the receiver waits. */
  ghost predicate Sheltered(c: Threads, es: seq<Event>)
    decreases |es|
  {
    && AtMostOneLive(c.state.tbl)
    && (es != [] ==> (es[0].Delete? ==> c.receiver.Running?) && Sheltered(Next(c, es[0]), es[1..]))
  }

  /** A waiting receiver's pipe is live, and a signal means there is a message in it. */
  ghost predicate WaitsWell(c: Threads) {
    && (!c.receiver.Running? ==> c.state.tbl[c.receiver.pipe].inUse == IN_USE)
    && (c.receiver.Signalled? ==> c.state.tbl[c.receiver.pipe].num >= 2)
  }

  ghost predicate WaitInv(c: Threads) {
    Inv(c.state) && WaitsWell(c)
  }

  lemma TrafficWaitsWell(c: Threads, e: Event)
    requires WaitInv(c) && Enabled(c, e) && AtMostOneLive(c.state.tbl) && (e.Arrival? || e.Enter? || e.Resume?)
    ensures WaitsWell(Next(c, e))
  {
    if e.Arrival? {
      ArrivalStep(c.state, e);
    } else if e.Enter? {
      LookupIsIdentity(c.state.tbl, e.id);
    }
  }

  lemma ManagementWaitsWell(c: Threads, e: Event)
    requires WaitInv(c) && (e.Create? || e.Delete? || e.Subscription?)
    requires e.Delete? ==> c.receiver.Running?
    ensures WaitsWell(Next(c, e))
  {
    if e.Create? {
      CreateStep(c.state, e);
    } else if e.Subscription? {
      SubscriptionStep(c.state, e);
    }
  }

  lemma NextKeepsWaitInv(c: Threads, e: Event)
    requires WaitInv(c) && Enabled(c, e) && AtMostOneLive(c.state.tbl)
    requires e.Delete? ==> c.receiver.Running?
    ensures GoodStep(c.state.tbl, e)
    ensures WaitInv(Next(c, e))
  {
    StepKeepsInv(c.state, e);
    if e.Arrival? || e.Enter? || e.Resume? {
      TrafficWaitsWell(c, e);
    } else {
      ManagementWaitsWell(c, e);
    }
  }

  lemma {:induction false} SameState(c: Threads, es: seq<Event>)
    ensures RunThreads(c, es).state == Run(c.state, es)
    decreases |es|
  {
    if es != [] {
      SameState(Next(c, es[0]), es[1..]);
    }
  }

  /** With never more than one live pipe, one receiver, enqueue-and-signal in one step and no
      spurious wake-ups, every zero-status resume finds an unread message. */
  lemma {:induction false} EveryWakeFindsAMessage(c: Threads, es: seq<Event>)
    requires WaitInv(c) && Possible(c, es) && Sheltered(c, es)
    ensures GoodRun(c.state, es)
    ensures WaitInv(RunThreads(c, es))
    decreases |es|
  {
    if es != [] {
      NextKeepsWaitInv(c, es[0]);
      EveryWakeFindsAMessage(Next(c, es[0]), es[1..]);
    }
  }

  /** So in that setting delivery is FIFO with no hypothesis on waits at all. */
  lemma SinglePipeDelivery(memory: PipeTable, es: seq<Event>, i: PipeIndex)
    requires Possible(Threads(Init(memory), Running), es) && Sheltered(Threads(Init(memory), Running), es)
    requires Run(Init(memory), es).tbl[i].inUse == IN_USE
    ensures var s := Run(Init(memory), es);
            && Carries(s.logs[i].taken + Unread(s.tbl[i]), s.logs[i].accepted)
            && |s.logs[i].accepted| == |s.logs[i].taken| + (s.tbl[i].num - 1)
  {
    InitInv(memory);
    EveryWakeFindsAMessage(Threads(Init(memory), Running), es);
    GoodForEach(Init(memory), es, i);
    GoodThroughout(Init(memory), es, i);
    FifoDelivery(memory, es, i);
  }

  // ---- exactly when every wake-up finds a message ----

  /** One receiver, which may wake up at any time for any reason. */
  predicate OneReceiver(c: Threads, es: seq<Event>)
    decreases |es|
  {
    es == [] || (TakesTurn(c, es[0]) && OneReceiver(Next(c, es[0]), es[1..]))
  }

  predicate TakesTurn(c: Threads, e: Event) {
    && (e.Enter? ==> c.receiver.Running?)
    && (e.Resume? ==> !c.receiver.Running? && c.receiver.pipe == e.pipe)
  }

  /** Every zero-status resume finds the receiver signalled. */
  predicate NoneSpurious(c: Threads, es: seq<Event>)
    decreases |es|
  {
    es == [] ||
    ((es[0].Resume? && es[0].wait.Woken? ==> c.receiver.Signalled?) && NoneSpurious(Next(c, es[0]), es[1..]))
  }

  /** The possible runs are exactly those of one receiver without spurious wake-ups; in particular a wait
      may expire or fail at any time. */
  lemma {:induction false} PossibleIffNoneSpurious(c: Threads, es: seq<Event>)
    ensures Possible(c, es) <==> OneReceiver(c, es) && NoneSpurious(c, es)
    decreases |es|
  {
    if es != [] {
      PossibleIffNoneSpurious(Next(c, es[0]), es[1..]);
    }
  }

  /** Keeps track of whether the pipe waited on has accepted a message during the wait and since it
      was last deleted. */
  function FedAfter(c: Threads, fed: bool, e: Event): bool {
    if c.receiver.Running? then false
    else match e
      case Arrival(buffer, size) => fed || Arrive(c.state.tbl, buffer, size).target == c.receiver.pipe
      case Delete(id) => fed && id != c.receiver.pipe
      case _ => fed
  }

  /** Each zero-status resume was preceded, during its wait and after the last deletion of the pipe it
      waits on, by an arrival which that pipe accepted. */
  predicate EveryWakeFed(c: Threads, fed: bool, es: seq<Event>)
    decreases |es|
  {
    es == [] ||
    ((es[0].Resume? && es[0].wait.Woken? ==> fed) &&
     EveryWakeFed(Next(c, es[0]), FedAfter(c, fed, es[0]), es[1..]))
  }

  /** Fed means that the pipe waited on holds an unread message. */
  ghost predicate FedMatches(c: Threads, fed: bool) {
    !c.receiver.Running? ==> (fed <==> c.state.tbl[c.receiver.pipe].num >= 2)
  }

  ghost predicate FedMeansUnread(c: Threads, fed: bool) {
    Inv(c.state) && FedMatches(c, fed)
  }

  lemma CreateKeepsFed(c: Threads, fed: bool, e: Event)
    requires FedMeansUnread(c, fed) && e.Create?
    ensures FedMatches(Next(c, e), FedAfter(c, fed, e))
  {
    CreateStep(c.state, e);
  }

  lemma DeleteKeepsFed(c: Threads, fed: bool, e: Event)
    requires FedMeansUnread(c, fed) && e.Delete?
    ensures FedMatches(Next(c, e), FedAfter(c, fed, e))
  {
    DeleteStep(c.state, e);
  }

  lemma SubscriptionKeepsFed(c: Threads, fed: bool, e: Event)
    requires FedMeansUnread(c, fed) && e.Subscription?
    ensures FedMatches(Next(c, e), FedAfter(c, fed, e))
  {
    SubscriptionStep(c.state, e);
  }

  lemma ArrivalKeepsFed(c: Threads, fed: bool, e: Event)
    requires FedMeansUnread(c, fed) && e.Arrival?
    ensures FedMatches(Next(c, e), FedAfter(c, fed, e))
  {
    ArrivalStep(c.state, e);
  }

  lemma ReceiveKeepsFed(c: Threads, fed: bool, e: Event)
    requires FedMeansUnread(c, fed) && TakesTurn(c, e) && (e.Enter? || e.Resume?)
    ensures FedMatches(Next(c, e), FedAfter(c, fed, e))
  {
    if e.Enter? {
      LookupIsIdentity(c.state.tbl, e.id);
    }
  }

  lemma NextKeepsFed(c: Threads, fed: bool, e: Event)
    requires FedMeansUnread(c, fed) && TakesTurn(c, e) && GoodStep(c.state.tbl, e)
    ensures FedMeansUnread(Next(c, e), FedAfter(c, fed, e))
  {
    StepKeepsInv(c.state, e);
    match e
    case Create(_, _) => CreateKeepsFed(c, fed, e);
    case Delete(_) => DeleteKeepsFed(c, fed, e);
    case Subscription(_, _) => SubscriptionKeepsFed(c, fed, e);
    case Arrival(_, _) => ArrivalKeepsFed(c, fed, e);
    case _ => ReceiveKeepsFed(c, fed, e);
  }

  lemma {:induction false} FedFrom(c: Threads, fed: bool, es: seq<Event>)
    requires FedMeansUnread(c, fed) && OneReceiver(c, es)
    ensures GoodRun(c.state, es) <==> EveryWakeFed(c, fed, es)
    decreases |es|
  {
    if es != [] && GoodStep(c.state.tbl, es[0]) {
      NextKeepsFed(c, fed, es[0]);
      FedFrom(Next(c, es[0]), FedAfter(c, fed, es[0]), es[1..]);
    }
  }

  /** For any number of pipes and one receiver: every zero-status resume finds an unread message exactly
      when each was preceded, during its wait and after the last deletion of its pipe, by an arrival
      that pipe accepted. */
  lemma GoodIffEveryWakeFed(memory: PipeTable, es: seq<Event>)
    requires OneReceiver(Threads(Init(memory), Running), es)
    ensures GoodRun(Init(memory), es) <==> EveryWakeFed(Threads(Init(memory), Running), false, es)
  {
    InitInv(memory);
    FedFrom(Threads(Init(memory), Running), false, es);
  }

  /** In particular in every run without spurious wake-ups. */
  lemma PossibleGoodIffFed(memory: PipeTable, es: seq<Event>)
    requires Possible(Threads(Init(memory), Running), es)
    ensures GoodRun(Init(memory), es) <==> EveryWakeFed(Threads(Init(memory), Running), false, es)
  {
    PossibleIffNoneSpurious(Threads(Init(memory), Running), es);
    GoodIffEveryWakeFed(memory, es);
  }

  // ---- the hypotheses are needed ----

  /** A message buffer whose id is 2. */
  function IdTwo(): (b: Slot)
    ensures GetMsgId(b) == 2
  {
    seq(MAX_MESSAGE_SIZE, i => if i == 1 then 2 else 0)
  }

  lemma {:induction false} RunThreadsSnoc(c: Threads, es: seq<Event>, e: Event)
    ensures Possible(c, es + [e]) <==> Possible(c, es) && Enabled(RunThreads(c, es), e)
    ensures RunThreads(c, es + [e]) == Next(RunThreads(c, es), e)
    decreases |es|
  {
    if es == [] {
      assert [] + [e] == [e];
    } else {
      assert (es + [e])[1..] == es[1..] + [e];
      RunThreadsSnoc(Next(c, es[0]), es[1..], e);
    }
  }

  /** d is reached by a possible run from InitPipeTbl with the receiver outside a wait. */
  ghost predicate Reached(memory: PipeTable, es: seq<Event>, d: Threads) {
    var c := Threads(Init(memory), Running);
    Possible(c, es) && d == RunThreads(c, es) && Inv(d.state)
  }

  lemma ReachNext(memory: PipeTable, es: seq<Event>, d: Threads, e: Event)
    requires Reached(memory, es, d) && Enabled(d, e) && GoodStep(d.state.tbl, e)
    ensures Reached(memory, es + [e], Next(d, e))
  {
    RunThreadsSnoc(Threads(Init(memory), Running), es, e);
    StepKeepsInv(d.state, e);
  }

  /** Pipe i of a table is live, without subscriptions, with nothing unread. */
  predicate Fresh(s: State, i: PipeIndex) {
    && s.tbl[i].inUse == IN_USE && s.tbl[i].subs == NoSubs() && RingStart(s.tbl[i])
    && s.logs[i] == Log([], [], [])
  }

  /** Pipe 0 is live, no other. */
  lemma OnePipeMade(memory: PipeTable) returns (es: seq<Event>, d: Threads)
    ensures Reached(memory, es, d) && d.receiver == Running && Fresh(d.state, 0)
    ensures forall i: PipeIndex | i > 0 :: d.state.tbl[i].inUse == NOT_IN_USE
  {
    InitInv(memory);
    var create, c := Create(false, 1), Threads(Init(memory), Running);
    assert FirstFree(c.state.tbl) == 0;
    CreateStep(c.state, create);
    ReachNext(memory, [], c, create);
    es, d := [] + [create], Next(c, create);
  }

  /** Pipes 0 and 1 are live. */
  lemma TwoPipesMade(memory: PipeTable) returns (es: seq<Event>, d: Threads)
    ensures Reached(memory, es, d) && d.receiver == Running && Fresh(d.state, 0) && Fresh(d.state, 1)
  {
    var create := Create(false, 1);
    var es0, c := OnePipeMade(memory);
    assert c.state.tbl[0].inUse == IN_USE && c.state.tbl[1].inUse == NOT_IN_USE;
    assert FirstFree(c.state.tbl) == 1;
    CreateStep(c.state, create);
    ReachNext(memory, es0, c, create);
    es, d := es0 + [create], Next(c, create);
  }

  /** Pipe 1 alone subscribes, to id 2. */
  lemma SecondSubscribes(memory: PipeTable) returns (es: seq<Event>, d: Threads)
    ensures Reached(memory, es, d) && d.receiver == Running
    ensures Fresh(d.state, 0)
    ensures d.state.tbl[1].inUse == IN_USE && 2 in d.state.tbl[1].subs && d.state.tbl[1].num == 1
  {
    var subscribe := Subscription(2, 1);
    var es0, c := TwoPipesMade(memory);
    SubscriptionStep(c.state, subscribe);
    ReachNext(memory, es0, c, subscribe);
    es, d := es0 + [subscribe], Next(c, subscribe);
    assert d.state.tbl[1].subs[0] == 2;
  }

  /** The receiver waits on pipe 0; then a message for pipe 1 arrives. */
  lemma WrongPipeSignalled(memory: PipeTable) returns (es: seq<Event>, d: Threads)
    ensures Reached(memory, es, d) && d.receiver == Signalled(0)
    ensures d.state.tbl[0].inUse == IN_USE && RingStart(d.state.tbl[0])
  {
    var enter, arrive := Enter(false, 0, PEND_FOREVER, true, true), Arrival(IdTwo(), 6);
    var es0, c := SecondSubscribes(memory);
    LookupIsIdentity(c.state.tbl, 0);
    ReachNext(memory, es0, c, enter);
    var c1 := Next(c, enter);
    assert c1 == Threads(c.state, Asleep(0));
    assert Route(c1.state.tbl, 2) == 1;
    ArrivalStep(c1.state, arrive);
    ReachNext(memory, es0 + [enter], c1, arrive);
    es, d := es0 + [enter] + [arrive], Next(c1, arrive);
  }

  /** A zero-status resume that finds nothing unread still reports success, unless its unlock fails: it
      hands out a slot no message was accepted for, and the count drops to 0. */
  lemma WakeWithoutMessage(s: State, i: PipeIndex, unlockOk: bool)
    requires Delivers(s, i) && s.tbl[i].inUse == IN_USE && s.tbl[i].num == 1
    ensures var e := Resume(i, Woken, unlockOk);
            && ReceiveOf(s.tbl, e).outcome
               == (if unlockOk then Returned(Success, SlotOf(i, SlotAt(s.tbl[i].read, 1)))
                   else Returned(PipeReadError, Null))
            && Step(s, e).tbl[i].num == 0
            && |Step(s, e).logs[i].taken| == |Step(s, e).logs[i].accepted| + 1
            && !Delivers(Step(s, e), i)
  {
    TakeKeepsRing(s.tbl[i]);
    StepKeepsRing(s, Resume(i, Woken, unlockOk), i);
  }

  /** The slot handed out is, moreover, where the next message for the pipe goes: its arrival writes over
      what the caller was just given. */
  lemma WakeOverwritten(s: State, i: PipeIndex, buffer: Slot, size: MsgSize)
    requires Delivers(s, i) && s.tbl[i].inUse == IN_USE && s.tbl[i].num == 1
    requires Route(s.tbl, GetMsgId(buffer)) == i
    ensures var wake, arrive, k := Resume(i, Woken, true), Arrival(buffer, size), SlotAt(s.tbl[i].read, 1);
            var s1 := Step(s, wake);
            var s2 := Step(s1, arrive);
            && ReceiveOf(s.tbl, wake).outcome == Returned(Success, SlotOf(i, k))
            && !Disturbs(s1.tbl, arrive, i)
            && s2.tbl[i].read == s1.tbl[i].read == k
            && s2.tbl[i].slots[k] == Overwrite(s1.tbl[i].slots[k], buffer[..size])
  {
    var s1 := Step(s, Resume(i, Woken, true));
    TakeKeepsRing(s.tbl[i]);
    assert s1.tbl == s.tbl[i := Take(s.tbl[i])];
    assert Route(s1.tbl, GetMsgId(buffer)) == i;
    EntryIsHeld(s1.tbl[i]);
    ArrivalStep(s1, Arrival(buffer, size));
  }

  /** With two live pipes that does happen: a possible run ends with the receiver signalled on a pipe
      that holds no unread message. */
  lemma TwoPipesBreakTheWait(memory: PipeTable) returns (es: seq<Event>, d: Threads, e: Event)
    ensures Possible(Threads(Init(memory), Running), es)
    ensures d == RunThreads(Threads(Init(memory), Running), es) && d.state == Run(Init(memory), es)
    ensures e == Resume(0, Woken, true) && Enabled(d, e)
    ensures ReceiveOf(d.state.tbl, e).outcome == Returned(Success, SlotOf(0, 0))
    ensures var s := Next(d, e).state;
            |s.logs[0].taken| == |s.logs[0].accepted| + 1 && s.tbl[0].num == 0 && !Inv(s)
  {
    es, d := WrongPipeSignalled(memory);
    e := Resume(0, Woken, true);
    SameState(Threads(Init(memory), Running), es);
    WakeWithoutMessage(d.state, 0, true);
  }

  /** Nor is one pipe enough: a deletion between the signal and the wake-up empties the pipe under the
      receiver. */
  lemma DeletionBreaksTheWait(c: Threads)
    requires WaitInv(c) && c.receiver.Signalled?
    ensures var i := c.receiver.pipe;
            var d := Next(c, Delete(i));
            && Inv(d.state) && Enabled(d, Resume(i, Woken, true))
            && !GoodStep(d.state.tbl, Resume(i, Woken, true))
  {
    DeleteStep(c.state, Delete(c.receiver.pipe));
    StepKeepsInv(c.state, Delete(c.receiver.pipe));
  }

  /** Pipe 0, the only one, is waited on and has just been signalled. */
  lemma OnlyPipeSignalled(memory: PipeTable) returns (es: seq<Event>, d: Threads)
    ensures Reached(memory, es, d) && d.receiver == Signalled(0) && WaitInv(d)
    ensures AtMostOneLive(d.state.tbl)
  {
    var subscribe, enter := Subscription(2, 0), Enter(false, 0, PEND_FOREVER, true, true);
    var arrive := Arrival(IdTwo(), 6);
    var es0, c := OnePipeMade(memory);
    SubscriptionStep(c.state, subscribe);
    ReachNext(memory, es0, c, subscribe);
    var c1 := Next(c, subscribe);
    assert c1.state.tbl[0].subs[0] == 2;
    LookupIsIdentity(c1.state.tbl, 0);
    ReachNext(memory, es0 + [subscribe], c1, enter);
    var c2 := Next(c1, enter);
    assert c2 == Threads(c1.state, Asleep(0));
    assert Route(c2.state.tbl, 2) == 0;
    ArrivalStep(c2.state, arrive);
    ReachNext(memory, es0 + [subscribe] + [enter], c2, arrive);
    es, d := es0 + [subscribe] + [enter] + [arrive], Next(c2, arrive);
  }

  /** So a possible run with a single pipe ends in a wake-up that takes from the deleted pipe and reports
      success. */
  lemma DeletionRun(memory: PipeTable) returns (es: seq<Event>, d: Threads, e: Event)
    ensures Possible(Threads(Init(memory), Running), es)
    ensures d == RunThreads(Threads(Init(memory), Running), es) && d.state == Run(Init(memory), es)
    ensures forall i: PipeIndex :: d.state.tbl[i].inUse == NOT_IN_USE
    ensures e == Resume(0, Woken, true) && Enabled(d, e) && !GoodStep(d.state.tbl, e)
    ensures ReceiveOf(d.state.tbl, e).outcome == Returned(Success, SlotOf(0, 0))
  {
    var es0, c := OnlyPipeSignalled(memory);
    e := Resume(0, Woken, true);
    DeletionBreaksTheWait(c);
    DeleteStep(c.state, Delete(0));
    ReachNext(memory, es0, c, Delete(0));
    es, d := es0 + [Delete(0)], Next(c, Delete(0));
    SameState(Threads(Init(memory), Running), es);
    forall i: PipeIndex
      ensures d.state.tbl[i].inUse == NOT_IN_USE
    {
      assert EntryOk(c.state.tbl[i], i);
    }
  }
}
