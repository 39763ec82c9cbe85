/**
 The client as a state machine over its steps, with a log per pipe of what happened to it since
 it was created, and what holds in every run.
 */
module Runs {
  import opened Defs
  import opened Ring
  import opened Table

  /** One atomic step. A receive that waits is two steps, with any others in between. */
  datatype Event =
    | Create(nullPtr: bool, depth: uint16)
    | Delete(pipeId: uint8)
    | Subscription(msgId: uint16, id: PipeIndex)
    | Arrival(buffer: Slot, size: MsgSize)
    | Enter(nullBuf: bool, id: PipeIndex, timeout: int, lockOk: bool, unlockOk: bool)
    | Resume(pipe: PipeIndex, wait: WaitResult, unlockOk: bool)

  /** Since the pipe's creation: the messages ingest put into it, the contents of the slot at each
      take (also one whose unlock then failed), and the nonzero ids successfully subscribed. */
  datatype Log = Log(accepted: seq<seq<uint8>>, taken: seq<Slot>, subscribed: seq<uint16>)

  type Logs = s: seq<Log> | |s| == MAX_PIPES witness seq<Log>(MAX_PIPES, _ => Log([], [], []))

  datatype State = State(tbl: PipeTable, logs: Logs, creates: nat, deletes: nat)

  /** The state InitPipeTbl leaves behind, whatever the table held before. */
  function Init(t: PipeTable): State {
    State(InitPipeTbl(t), seq<Log>(MAX_PIPES, _ => Log([], [], [])), 0, 0)
  }

  function ReceiveOf(t: PipeTable, e: Event): Received
    requires e.Enter? || e.Resume?
  {
    match e
    case Enter(nullBuf, id, timeout, lockOk, unlockOk) => RcvEnter(t, nullBuf, id, timeout, lockOk, unlockOk)
    case Resume(pipe, wait, unlockOk) => RcvResume(t, pipe, wait, unlockOk)
  }

  /** The pipe a receive step takes a message from, MAX_PIPES if it takes none. */
  function TakenFrom(t: PipeTable, e: Event): (r: nat)
    ensures r <= MAX_PIPES
    ensures r < MAX_PIPES ==> (e.Enter? || e.Resume?) && ReceiveOf(t, e).tbl == t[r := Take(t[r])]
    ensures r == MAX_PIPES && (e.Enter? || e.Resume?) ==> ReceiveOf(t, e).tbl == t
  {
    if (e.Enter? || e.Resume?) && ReceiveOf(t, e).took then
      (if e.Resume? then e.pipe else GetPipeIdxInRange(t, e.id); GetPipeIdx(t, e.id))
    else MAX_PIPES
  }

  function Step(s: State, e: Event): State {
    match e
    case Create(nullPtr, depth) =>
      var c := CreatePipe(s.tbl, nullPtr, depth);
      if c.status != Success then s
      else s.(tbl := c.tbl, logs := s.logs[FirstFree(s.tbl) := Log([], [], [])], creates := s.creates + 1)
    case Delete(id) =>
      var d := DeletePipe(s.tbl, id);
      s.(tbl := d.tbl, deletes := s.deletes + if d.status == Success then 1 else 0)
    case Subscription(msgId, id) =>
      var u := Table.Subscribe(s.tbl, msgId, id);
      s.(tbl := u.tbl,
         logs := if u.status == Success && msgId != INVALID_MSG_ID
                 then s.logs[id := s.logs[id].(subscribed := s.logs[id].subscribed + [msgId])]
                 else s.logs)
    case Arrival(buffer, size) =>
      var r := Arrive(s.tbl, buffer, size);
      s.(tbl := r.tbl,
         logs := if r.signal && r.target < MAX_PIPES
                 then s.logs[r.target := s.logs[r.target].(accepted := s.logs[r.target].accepted + [buffer[..size]])]
                 else s.logs)
    case _ =>
      var i := TakenFrom(s.tbl, e);
      var t := ReceiveOf(s.tbl, e).tbl;
      s.(tbl := t,
         logs := if i < MAX_PIPES
                 then s.logs[i := s.logs[i].(taken := s.logs[i].taken + [t[i].slots[t[i].read]])]
                 else s.logs)
  }

  function Run(s: State, es: seq<Event>): State
    decreases |es|
  {
    if es == [] then s else Run(Step(s, es[0]), es[1..])
  }

  // ---- the invariant ----

  /** Slot by slot, the message is the front of the slot. */
  ghost predicate Carries(slots: seq<Slot>, msgs: seq<seq<uint8>>) {
    |slots| == |msgs| && forall k | 0 <= k < |msgs| :: msgs[k] <= slots[k]
  }

  /** The messages taken, followed by the unread slots in ring order, are the messages accepted:
      none lost, duplicated or reordered. */
  ghost predicate Fifo(p: Pipe, l: Log) {
    Carries(l.taken + Unread(p), l.accepted)
  }

  /** The subscription array is the list of subscribed ids followed by empty positions. */
  ghost predicate SubsOk(p: Pipe, l: Log) {
    && |l.subscribed| <= MAX_MSG_IDS
    && INVALID_MSG_ID !in l.subscribed
    && p.subs == l.subscribed + seq(MAX_MSG_IDS - |l.subscribed|, _ => INVALID_MSG_ID)
  }

  function InUseCount(t: seq<Pipe>): nat {
    if t == [] then 0 else InUseCount(t[..|t| - 1]) + (if t[|t| - 1].inUse == IN_USE then 1 else 0)
  }

  /** Use, ids, subscriptions and the allocation balance: what no step can upset. */
  ghost predicate Registry(s: State) {
    && EntriesOk(s.tbl)
    && (forall i | 0 <= i < MAX_PIPES && s.tbl[i].inUse == IN_USE :: SubsOk(s.tbl[i], s.logs[i]))
    && InUseCount(s.tbl) + s.deletes == s.creates
  }

  /** The ring of one pipe: valid and FIFO while the pipe is live, untouched while it is not. */
  ghost predicate RingInv(p: Pipe, l: Log) {
    if p.inUse == IN_USE then RingOk(p) && Fifo(p, l) else RingStart(p)
  }

  ghost predicate Delivers(s: State, i: PipeIndex) {
    Registry(s) && RingInv(s.tbl[i], s.logs[i])
  }

  ghost predicate Inv(s: State) {
    Registry(s) && forall i | 0 <= i < MAX_PIPES :: RingInv(s.tbl[i], s.logs[i])
  }

  /** A wait on pipe i that ends with status zero finds an unread message there. */
  predicate GoodStepFor(t: PipeTable, e: Event, i: PipeIndex) {
    e.Resume? && e.wait.Woken? && e.pipe == i ==> t[i].num >= 2
  }

  predicate GoodRunFor(s: State, es: seq<Event>, i: PipeIndex)
    decreases |es|
  {
    es == [] || (GoodStepFor(s.tbl, es[0], i) && GoodRunFor(Step(s, es[0]), es[1..], i))
  }

  /** The same for waits on every pipe. */
  predicate GoodStep(t: PipeTable, e: Event) {
    e.Resume? && e.wait.Woken? ==> t[e.pipe].num >= 2
  }

  predicate GoodRun(s: State, es: seq<Event>)
    decreases |es|
  {
    es == [] || (GoodStep(s.tbl, es[0]) && GoodRun(Step(s, es[0]), es[1..]))
  }

  ghost predicate AlwaysDelivers(s: State, es: seq<Event>, i: PipeIndex)
    decreases |es|
  {
    Delivers(s, i) && (es != [] ==> AlwaysDelivers(Step(s, es[0]), es[1..], i))
  }

  ghost predicate AlwaysInv(s: State, es: seq<Event>)
    decreases |es|
  {
    Inv(s) && (es != [] ==> AlwaysInv(Step(s, es[0]), es[1..]))
  }

  // ---- single pipes ----

  lemma PutKeepsFifo(p: Pipe, l: Log, m: seq<uint8>)
    requires RingOk(p) && p.num < DEPTH && |m| <= MAX_MESSAGE_SIZE && Fifo(p, l)
    ensures Fifo(Put(p, m), l.(accepted := l.accepted + [m]))
  {
    PutAppends(p, m);
    var slot := Overwrite(p.slots[EntryPoint(p)], m);
    assert l.taken + Unread(Put(p, m)) == (l.taken + Unread(p)) + [slot];
  }

  lemma TakeKeepsFifo(p: Pipe, l: Log)
    requires RingOk(p) && p.num >= 2 && Fifo(p, l)
    ensures var q := Take(p);
            q.read < DEPTH && Fifo(q, l.(taken := l.taken + [q.slots[q.read]]))
  {
    TakeRemovesFirst(p);
    var q := Take(p);
    assert (l.taken + [q.slots[q.read]]) + Unread(q) == l.taken + Unread(p);
  }

  /** The free position is the one after the subscribed ids, so no live entry is overwritten. */
  lemma SubscribeIndexIsLength(p: Pipe, l: Log)
    requires SubsOk(p, l)
    ensures SubscribeIndex(p) == if |l.subscribed| < MAX_MSG_IDS then |l.subscribed| else MAX_MSG_IDS_MET
  {
    var n, k := |l.subscribed|, SubscribeIndex(p);
    if n < MAX_MSG_IDS {
      assert p.subs[n] == INVALID_MSG_ID;
    }
    assert forall j | 0 <= j < n :: p.subs[j] == l.subscribed[j];
  }

  lemma SubscribeKeepsSubs(p: Pipe, l: Log, msgId: uint16)
    requires SubsOk(p, l) && |l.subscribed| < MAX_MSG_IDS
    ensures var q := p.(subs := p.subs[|l.subscribed| := msgId]);
            SubsOk(q, if msgId == INVALID_MSG_ID then l else l.(subscribed := l.subscribed + [msgId]))
  {
    var n := |l.subscribed|;
    if msgId == INVALID_MSG_ID {
      assert p.subs[n := msgId] == p.subs;
    } else {
      assert p.subs[n := msgId] == (l.subscribed + [msgId]) + seq(MAX_MSG_IDS - (n + 1), _ => INVALID_MSG_ID);
    }
  }

  // ---- what each step does to the table and the logs ----

  /** Step replaces at most one entry and its log. */
  ghost predicate Replaces(s: State, s': State, i: PipeIndex, p: Pipe, l: Log) {
    s'.tbl == s.tbl[i := p] && s'.logs == s.logs[i := l]
  }

  lemma CreateStep(s: State, e: Event)
    requires EntriesOk(s.tbl) && e.Create?
    ensures var i, s' := FirstFree(s.tbl), Step(s, e);
            if CreatePipe(s.tbl, e.nullPtr, e.depth).status != Success then s' == s
            else
              && i < MAX_PIPES && s.tbl[i].inUse == NOT_IN_USE && s.tbl[i].subs == NoSubs()
              && Replaces(s, s', i, s.tbl[i].(inUse := IN_USE, pipeId := i), Log([], [], []))
              && s'.creates == s.creates + 1 && s'.deletes == s.deletes
  {
    if FirstFree(s.tbl) < MAX_PIPES {
      assert EntryOk(s.tbl[FirstFree(s.tbl)], FirstFree(s.tbl));
    }
  }

  lemma DeleteStep(s: State, e: Event)
    requires EntriesOk(s.tbl) && e.Delete?
    ensures var i, s' := e.pipeId, Step(s, e);
            if i < MAX_PIPES && s.tbl[i].inUse == IN_USE then
              && Replaces(s, s', i, Invalidate(s.tbl[i]), s.logs[i])
              && s'.creates == s.creates && s'.deletes == s.deletes + 1
            else s' == s
  {
    DeleteHitsOwnIndex(s.tbl, e.pipeId);
  }

  lemma SubscriptionStep(s: State, e: Event)
    requires Registry(s) && e.Subscription?
    ensures var i, s' := e.id, Step(s, e);
            var p, l := s.tbl[i], s.logs[i];
            if p.inUse == IN_USE && |l.subscribed| < MAX_MSG_IDS then
              && Replaces(s, s', i, p.(subs := p.subs[|l.subscribed| := e.msgId]),
                          if e.msgId == INVALID_MSG_ID then l else l.(subscribed := l.subscribed + [e.msgId]))
              && s'.creates == s.creates && s'.deletes == s.deletes
            else s' == s
  {
    LookupIsIdentity(s.tbl, e.id);
    if s.tbl[e.id].inUse == IN_USE {
      SubscribeIndexIsLength(s.tbl[e.id], s.logs[e.id]);
    }
  }

  lemma ArrivalStep(s: State, e: Event)
    requires e.Arrival?
    ensures var r, s' := Arrive(s.tbl, e.buffer, e.size), Step(s, e);
            var i, m := r.target, e.buffer[..e.size];
            if i < MAX_PIPES then
              && s.tbl[i].inUse == IN_USE && s.tbl[i].num != DEPTH
              && Replaces(s, s', i, Put(s.tbl[i], m), s.logs[i].(accepted := s.logs[i].accepted + [m]))
              && s'.creates == s.creates && s'.deletes == s.deletes
            else s' == s
  {
  }

  lemma ReceiveStep(s: State, e: Event)
    requires EntriesOk(s.tbl) && (e.Enter? || e.Resume?)
    ensures var i, s' := TakenFrom(s.tbl, e), Step(s, e);
            if i < MAX_PIPES then
              var q := Take(s.tbl[i]);
              && (e.Resume? ==> e.wait.Woken? && e.pipe == i)
              && (e.Enter? ==> e.id == i)
              && Replaces(s, s', i, q, s.logs[i].(taken := s.logs[i].taken + [q.slots[q.read]]))
              && s'.creates == s.creates && s'.deletes == s.deletes
            else s' == s && (e.Resume? ==> !e.wait.Woken?)
    ensures e.Enter? ==>
              (TakenFrom(s.tbl, e) < MAX_PIPES <==>
               && !e.nullBuf && e.timeout >= -1 && e.lockOk
               && s.tbl[e.id].inUse == IN_USE && s.tbl[e.id].num >= 2)
  {
    if e.Enter? {
      LookupIsIdentity(s.tbl, e.id);
    }
  }

  // ---- the registry, in every run ----

  lemma CountUpdate(t: seq<Pipe>, i: nat, p: Pipe)
    requires i < |t|
    ensures InUseCount(t[i := p]) + (if t[i].inUse == IN_USE then 1 else 0)
            == InUseCount(t) + (if p.inUse == IN_USE then 1 else 0)
  {
    var n := |t| - 1;
    if i == n {
      assert t[i := p][..n] == t[..n];
    } else {
      assert t[i := p][..n] == t[..n][i := p];
      CountUpdate(t[..n], i, p);
    }
  }

  lemma CountNone(t: seq<Pipe>)
    requires forall i | 0 <= i < |t| :: t[i].inUse == NOT_IN_USE
    ensures InUseCount(t) == 0
  {
  }

  lemma RegistryUpdate(s: State, s': State, i: PipeIndex, p: Pipe, l: Log)
    requires Registry(s) && Replaces(s, s', i, p, l)
    requires EntryOk(p, i) && (p.inUse == IN_USE ==> SubsOk(p, l))
    requires s'.deletes - s.deletes + (if p.inUse == IN_USE then 1 else 0)
             == s'.creates - s.creates + (if s.tbl[i].inUse == IN_USE then 1 else 0)
    ensures Registry(s')
  {
    CountUpdate(s.tbl, i, p);
    forall j | 0 <= j < MAX_PIPES
      ensures EntryOk(s'.tbl[j], j) && (s'.tbl[j].inUse == IN_USE ==> SubsOk(s'.tbl[j], s'.logs[j]))
    {
      assert EntryOk(s.tbl[j], j);
    }
  }

  lemma CreateKeepsRegistry(s: State, e: Event)
    requires Registry(s) && e.Create?
    ensures Registry(Step(s, e))
  {
    CreateStep(s, e);
    if CreatePipe(s.tbl, e.nullPtr, e.depth).status == Success {
      var i := FirstFree(s.tbl);
      var p := s.tbl[i].(inUse := IN_USE, pipeId := i);
      assert p.subs == [] + NoSubs();
      RegistryUpdate(s, Step(s, e), i, p, Log([], [], []));
    }
  }

  lemma DeleteKeepsRegistry(s: State, e: Event)
    requires Registry(s) && e.Delete?
    ensures Registry(Step(s, e))
  {
    DeleteStep(s, e);
    var i := e.pipeId;
    if i < MAX_PIPES && s.tbl[i].inUse == IN_USE {
      RegistryUpdate(s, Step(s, e), i, Invalidate(s.tbl[i]), s.logs[i]);
    }
  }

  lemma SubscriptionKeepsRegistry(s: State, e: Event)
    requires Registry(s) && e.Subscription?
    ensures Registry(Step(s, e))
  {
    SubscriptionStep(s, e);
    var p, l, msgId := s.tbl[e.id], s.logs[e.id], e.msgId;
    if p.inUse == IN_USE && |l.subscribed| < MAX_MSG_IDS {
      assert EntryOk(p, e.id);
      SubscribeKeepsSubs(p, l, msgId);
      RegistryUpdate(s, Step(s, e), e.id, p.(subs := p.subs[|l.subscribed| := msgId]),
                     if msgId == INVALID_MSG_ID then l else l.(subscribed := l.subscribed + [msgId]));
    }
  }

  lemma ArrivalKeepsRegistry(s: State, e: Event)
    requires Registry(s) && e.Arrival?
    ensures Registry(Step(s, e))
  {
    ArrivalStep(s, e);
    var i, m := Arrive(s.tbl, e.buffer, e.size).target, e.buffer[..e.size];
    if i < MAX_PIPES {
      assert EntryOk(s.tbl[i], i);
      RegistryUpdate(s, Step(s, e), i, Put(s.tbl[i], m), s.logs[i].(accepted := s.logs[i].accepted + [m]));
    }
  }

  lemma ReceiveKeepsRegistry(s: State, e: Event)
    requires Registry(s) && (e.Enter? || e.Resume?)
    ensures Registry(Step(s, e))
  {
    ReceiveStep(s, e);
    var i := TakenFrom(s.tbl, e);
    if i < MAX_PIPES {
      assert EntryOk(s.tbl[i], i);
      var q := Take(s.tbl[i]);
      RegistryUpdate(s, Step(s, e), i, q, s.logs[i].(taken := s.logs[i].taken + [q.slots[q.read]]));
    }
  }

  /** No step upsets the registry, a wake-up without a message included. */
  lemma StepKeepsRegistry(s: State, e: Event)
    requires Registry(s)
    ensures Registry(Step(s, e))
  {
    match e
    case Create(_, _) => CreateKeepsRegistry(s, e);
    case Delete(_) => DeleteKeepsRegistry(s, e);
    case Subscription(_, _) => SubscriptionKeepsRegistry(s, e);
    case Arrival(_, _) => ArrivalKeepsRegistry(s, e);
    case _ => ReceiveKeepsRegistry(s, e);
  }

  lemma {:induction false} RunKeepsRegistry(s: State, es: seq<Event>)
    requires Registry(s)
    ensures Registry(Run(s, es))
    decreases |es|
  {
    if es != [] {
      StepKeepsRegistry(s, es[0]);
      RunKeepsRegistry(Step(s, es[0]), es[1..]);
    }
  }

  // ---- the ring of one pipe, in runs that are good for it ----

  lemma ManagementKeepsRing(s: State, e: Event, i: PipeIndex)
    requires Delivers(s, i) && (e.Create? || e.Delete? || e.Subscription?)
    ensures RingInv(Step(s, e).tbl[i], Step(s, e).logs[i])
  {
    assert EntryOk(s.tbl[i], i);
    if e.Create? {
      CreateStep(s, e);
    } else if e.Delete? {
      DeleteStep(s, e);
    } else {
      SubscriptionStep(s, e);
      assert Unread(Step(s, e).tbl[i]) == Unread(s.tbl[i]);
    }
  }

  lemma ArrivalKeepsRing(s: State, e: Event, i: PipeIndex)
    requires Delivers(s, i) && e.Arrival?
    ensures RingInv(Step(s, e).tbl[i], Step(s, e).logs[i])
  {
    ArrivalStep(s, e);
    if Arrive(s.tbl, e.buffer, e.size).target == i {
      PutKeepsFifo(s.tbl[i], s.logs[i], e.buffer[..e.size]);
      PutAppends(s.tbl[i], e.buffer[..e.size]);
    }
  }

  lemma ReceiveKeepsRing(s: State, e: Event, i: PipeIndex)
    requires Delivers(s, i) && (e.Enter? || e.Resume?)
    ensures RingInv(Step(s, e).tbl[i], Step(s, e).logs[i]) <==> GoodStepFor(s.tbl, e, i)
  {
    ReceiveStep(s, e);
    if TakenFrom(s.tbl, e) == i {
      TakeKeepsRing(s.tbl[i]);
      if s.tbl[i].num >= 2 {
        TakeKeepsFifo(s.tbl[i], s.logs[i]);
      }
    }
  }

  /** A step keeps the ring invariant of pipe i exactly when it is not a zero-status resume of that
      pipe without an unread message there; wake-ups of other pipes do not matter. */
  lemma StepKeepsRing(s: State, e: Event, i: PipeIndex)
    requires Delivers(s, i)
    ensures RingInv(Step(s, e).tbl[i], Step(s, e).logs[i]) <==> GoodStepFor(s.tbl, e, i)
  {
    match e
    case Arrival(_, _) => ArrivalKeepsRing(s, e, i);
    case Enter(_, _, _, _, _) => ReceiveKeepsRing(s, e, i);
    case Resume(_, _, _) => ReceiveKeepsRing(s, e, i);
    case _ => ManagementKeepsRing(s, e, i);
  }

  /** The ring, FIFO and registry invariants hold for pipe i after every prefix of a run exactly when
      every zero-status resume of pipe i in it finds an unread message. */
  lemma {:induction false} PipeInvariant(s: State, es: seq<Event>, i: PipeIndex)
    requires Delivers(s, i)
    ensures AlwaysDelivers(s, es, i) <==> GoodRunFor(s, es, i)
    ensures GoodRunFor(s, es, i) ==> Delivers(Run(s, es), i)
    decreases |es|
  {
    if es != [] {
      StepKeepsRegistry(s, es[0]);
      StepKeepsRing(s, es[0], i);
      if GoodStepFor(s.tbl, es[0], i) {
        PipeInvariant(Step(s, es[0]), es[1..], i);
      } else {
        NeverDelivers(Step(s, es[0]), es[1..], i);
      }
    }
  }

  lemma NeverDelivers(s: State, es: seq<Event>, i: PipeIndex)
    requires !Delivers(s, i)
    ensures !AlwaysDelivers(s, es, i)
  {
  }

  // ---- a deletion heals the ring ----

  /** Whether pipe i's waits have gone well since its last deletion, or since `good` was so. */
  predicate StillGood(t: PipeTable, e: Event, i: PipeIndex, good: bool) {
    if e.Delete? && e.pipeId == i && t[i].inUse == IN_USE then true else good && GoodStepFor(t, e, i)
  }

  predicate GoodSinceDeletion(s: State, es: seq<Event>, i: PipeIndex, good: bool)
    decreases |es|
  {
    if es == [] then good
    else GoodSinceDeletion(Step(s, es[0]), es[1..], i, StillGood(s.tbl, es[0], i, good))
  }

  /** Deleting a live pipe puts its ring in order whatever state it was in. */
  lemma DeletionHeals(s: State, i: PipeIndex)
    requires Registry(s) && s.tbl[i].inUse == IN_USE
    ensures Delivers(Step(s, Delete(i)), i)
  {
    StepKeepsRegistry(s, Delete(i));
    DeleteStep(s, Delete(i));
  }

  /** So a pipe delivers if its waits have gone well since its last deletion; earlier ones do not
      matter. */
  lemma {:induction false} DeliversSinceDeletion(s: State, es: seq<Event>, i: PipeIndex, good: bool)
    requires Registry(s) && (good ==> Delivers(s, i))
    requires GoodSinceDeletion(s, es, i, good)
    ensures Delivers(Run(s, es), i)
    decreases |es|
  {
    if es != [] {
      var e, good' := es[0], StillGood(s.tbl, es[0], i, good);
      StepKeepsRegistry(s, e);
      if e == Delete(i) && s.tbl[i].inUse == IN_USE {
        DeletionHeals(s, i);
      } else if good' {
        StepKeepsRing(s, e, i);
      }
      DeliversSinceDeletion(Step(s, e), es[1..], i, good');
    }
  }

  lemma {:induction false} GoodThroughout(s: State, es: seq<Event>, i: PipeIndex)
    requires GoodRunFor(s, es, i)
    ensures GoodSinceDeletion(s, es, i, true)
    decreases |es|
  {
    if es != [] {
      GoodThroughout(Step(s, es[0]), es[1..], i);
    }
  }

  // ---- all pipes ----

  /** Whatever the table held: the stored bytes stay, all else is put in order. */
  lemma InitInv(t: PipeTable)
    ensures Inv(Init(t))
    ensures forall i | 0 <= i < MAX_PIPES :: Init(t).tbl[i].inUse == 0 && Init(t).tbl[i].slots == t[i].slots
  {
    CountNone(InitPipeTbl(t));
  }

  /** An unused entry is then exactly what invalidate_pipe leaves. */
  lemma UnusedIsInvalidated(s: State, i: PipeIndex)
    requires Delivers(s, i)
    ensures PipeOk(s.tbl[i], i)
  {
    assert EntryOk(s.tbl[i], i);
  }

  /** A step keeps the whole invariant exactly when it is no zero-status resume of a pipe without an
      unread message. */
  lemma StepKeepsInv(s: State, e: Event)
    requires Inv(s)
    ensures Inv(Step(s, e)) <==> GoodStep(s.tbl, e)
  {
    StepKeepsRegistry(s, e);
    forall i: PipeIndex
      ensures RingInv(Step(s, e).tbl[i], Step(s, e).logs[i]) <==> GoodStepFor(s.tbl, e, i)
    {
      StepKeepsRing(s, e, i);
    }
    if !GoodStep(s.tbl, e) {
      assert !GoodStepFor(s.tbl, e, e.pipe);
    }
  }

  /** The table, ring, FIFO, subscription and allocation invariants hold after every prefix of a
      run exactly when every zero-status resume in it finds an unread message. */
  lemma {:induction false} RunInvariant(s: State, es: seq<Event>)
    requires Inv(s)
    ensures AlwaysInv(s, es) <==> GoodRun(s, es)
    ensures GoodRun(s, es) ==> Inv(Run(s, es))
    decreases |es|
  {
    if es != [] {
      StepKeepsInv(s, es[0]);
      if GoodStep(s.tbl, es[0]) {
        RunInvariant(Step(s, es[0]), es[1..]);
      } else {
        NeverInv(Step(s, es[0]), es[1..]);
      }
    }
  }

  lemma NeverInv(s: State, es: seq<Event>)
    requires !Inv(s)
    ensures !AlwaysInv(s, es)
  {
  }

  lemma {:induction false} GoodForEach(s: State, es: seq<Event>, i: PipeIndex)
    requires GoodRun(s, es)
    ensures GoodRunFor(s, es, i)
    decreases |es|
  {
    if es != [] {
      GoodForEach(Step(s, es[0]), es[1..], i);
    }
  }

  lemma {:induction false} BadForOne(s: State, es: seq<Event>) returns (i: PipeIndex)
    requires !GoodRun(s, es)
    ensures !GoodRunFor(s, es, i)
    decreases |es|
  {
    if GoodStep(s.tbl, es[0]) {
      i := BadForOne(Step(s, es[0]), es[1..]);
    } else {
      i := es[0].pipe;
    }
  }

  /** A run is good exactly when it is good for each pipe. */
  lemma GoodIsGoodForEach(s: State, es: seq<Event>)
    ensures GoodRun(s, es) <==> forall i: PipeIndex :: GoodRunFor(s, es, i)
  {
    if GoodRun(s, es) {
      forall i: PipeIndex
        ensures GoodRunFor(s, es, i)
      {
        GoodForEach(s, es, i);
      }
    } else {
      var i := BadForOne(s, es);
    }
  }
}
