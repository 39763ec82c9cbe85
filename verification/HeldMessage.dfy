/**
 The message a caller holds: RcvMsg returns the address of a slot of the ring, so the message stays
 readable only while nothing is written there. Here is exactly when that is so.
 */
module HeldMessage {
  import opened Defs
  import opened Ring
  import opened Table
  import opened Runs

  predicate Disturbs(t: PipeTable, e: Event, i: PipeIndex) {
    TakenFrom(t, e) == i || (e.Delete? && e.pipeId == i)
  }

  /** Only three steps disturb pipe i: its deletion, a zero-status resume, and a call that finds a message
      at once; a receive that fails, finds none or starts to wait does not. */
  lemma WhatDisturbs(t: PipeTable, e: Event, i: PipeIndex)
    requires EntriesOk(t) && t[i].inUse == IN_USE
    ensures Disturbs(t, e, i) <==>
            || (e.Delete? && e.pipeId == i)
            || (e.Resume? && e.pipe == i && e.wait.Woken?)
            || (e.Enter? && e.id == i && !e.nullBuf && e.timeout >= -1 && e.lockOk && t[i].num >= 2)
  {
    if e.Enter? {
      LookupIsIdentity(t, e.id);
    }
  }

  predicate Undisturbed(s: State, es: seq<Event>, i: PipeIndex)
    decreases |es|
  {
    es == [] || (!Disturbs(s.tbl, es[0], i) && Undisturbed(Step(s, es[0]), es[1..], i))
  }

  ghost predicate SameHeld(s: State, t: State, i: PipeIndex) {
    var p, q := s.tbl[i], t.tbl[i];
    && q.inUse == IN_USE && RingOk(q)
    && q.read == p.read < DEPTH && q.slots[q.read] == p.slots[p.read]
    && t.logs[i].taken == s.logs[i].taken
  }

  lemma StepKeepsHeld(s: State, e: Event, i: PipeIndex)
    requires Registry(s) && RingOk(s.tbl[i]) && s.tbl[i].inUse == IN_USE && !Disturbs(s.tbl, e, i)
    ensures SameHeld(s, Step(s, e), i)
  {
    match e
    case Create(_, _) => CreateStep(s, e);
    case Delete(_) => DeleteStep(s, e);
    case Subscription(_, _) => SubscriptionStep(s, e);
    case Arrival(buffer, size) =>
      ArrivalStep(s, e);
      if Arrive(s.tbl, buffer, size).target == i {
        PutAppends(s.tbl[i], buffer[..size]);
      }
    case _ => ReceiveStep(s, e);
  }

  /** While the ring of its pipe is valid the slot a receive last returned keeps its contents, whatever
      arrives and whatever is done to other pipes, wake-ups without a message there included, until the
      next take from that pipe or its deletion. */
  lemma {:induction false} HeldMessageStable(s: State, es: seq<Event>, i: PipeIndex)
    requires Registry(s) && RingOk(s.tbl[i]) && s.tbl[i].inUse == IN_USE
    requires Undisturbed(s, es, i)
    ensures SameHeld(s, Run(s, es), i)
    decreases |es|
  {
    if es != [] {
      StepKeepsRegistry(s, es[0]);
      StepKeepsHeld(s, es[0], i);
      HeldMessageStable(Step(s, es[0]), es[1..], i);
    }
  }

  // ---- the other rings ----

  /** The slot held in s has the same contents in t. */
  predicate SlotKept(s: State, t: State, i: PipeIndex)
    requires s.tbl[i].read < DEPTH
  {
    t.tbl[i].read == s.tbl[i].read && t.tbl[i].slots[s.tbl[i].read] == s.tbl[i].slots[s.tbl[i].read]
  }

  /** A message with this id whose third byte differs from the slot's. */
  function Differing(id: uint16, slot: Slot): (b: Slot)
    ensures GetMsgId(b) == id && b[2] != slot[2]
  {
    var third := if slot[2] == 0 then 1 else 0;
    var b: Slot := seq(MAX_MESSAGE_SIZE, k => if k == 0 then id / 0x100 else if k == 1 then id % 0x100 else third);
    assert Unpack16(b[..2]) == id;
    b
  }

  /** How many arrivals until the count is a multiple of the depth. */
  function Gap(num: uint32): nat {
    if num % DEPTH == 0 then 0 else DEPTH - num % DEPTH
  }

  lemma GapCloses(num: uint32)
    requires Gap(num) > 0
    ensures Gap(Inc32(num)) == Gap(num) - 1
  {
    var q, r := num / DEPTH, num % DEPTH;
    assert num == q * DEPTH + r && 0 < r < DEPTH;
  }

  function Copies(e: Event, n: nat): (es: seq<Event>)
    ensures |es| == n
    ensures forall k | 0 <= k < n :: es[k] == e
  {
    if n == 0 then [] else [e] + Copies(e, n - 1)
  }

  /** e arrives for the live pipe i, whose ring is out of range. */
  ghost predicate Overrunning(s: State, e: Event, i: PipeIndex) {
    && Registry(s) && e.Arrival? && s.tbl[i].inUse == IN_USE && Route(s.tbl, GetMsgId(e.buffer)) == i
    && s.tbl[i].read < DEPTH && (s.tbl[i].num == 0 || s.tbl[i].num > DEPTH)
  }

  /** The first of some copies goes in. */
  lemma CopyGoesIn(s: State, e: Event, n: nat, i: PipeIndex) returns (s': State)
    requires Overrunning(s, e, i)
    ensures Run(s, Copies(e, n + 1)) == Run(s', Copies(e, n))
    ensures Undisturbed(s, Copies(e, n + 1), i) <==> Undisturbed(s', Copies(e, n), i)
    ensures s'.tbl[i] == Put(s.tbl[i], e.buffer[..e.size])
    ensures Gap(s.tbl[i].num) > 0 ==> Overrunning(s', e, i)
  {
    s' := Step(s, e);
    StepKeepsRegistry(s, e);
    ArrivalStep(s, e);
    assert Copies(e, n + 1)[1..] == Copies(e, n);
  }

  /** In t the message has been written over the slot held in s, which is still the one held. */
  ghost predicate RunOver(s: State, t: State, e: Event, i: PipeIndex)
    requires s.tbl[i].read < DEPTH && e.Arrival?
  {
    var p, q := s.tbl[i], t.tbl[i];
    q.read == p.read && q.slots[p.read] == Overwrite(p.slots[p.read], e.buffer[..e.size])
  }

  lemma CopyRunsOver(s: State, s': State, t: State, e: Event, i: PipeIndex)
    requires Overrunning(s, e, i) && s'.tbl[i] == Put(s.tbl[i], e.buffer[..e.size])
    requires if Gap(s.tbl[i].num) == 0 then t == s' else RunOver(s', t, e, i)
    ensures RunOver(s, t, e, i)
  {
    EntryIsHeld(s.tbl[i]);
  }

  /** Enough copies of one message run over the held slot of a ring that is out of range: the overflow
      test asks for equality with the depth and never stops them. */
  lemma {:induction false} Overrun(s: State, e: Event, i: PipeIndex)
    requires Overrunning(s, e, i)
    ensures var es := Copies(e, Gap(s.tbl[i].num) + 1);
            Undisturbed(s, es, i) && RunOver(s, Run(s, es), e, i)
    decreases Gap(s.tbl[i].num)
  {
    var n := Gap(s.tbl[i].num);
    var s' := CopyGoesIn(s, e, n, i);
    if n > 0 {
      GapCloses(s.tbl[i].num);
      Overrun(s', e, i);
    }
    CopyRunsOver(s, s', Run(s', Copies(e, n)), e, i);
  }

  /** Delete the pipes from k up to, not including, i; then go on. */
  function DeleteBelow(k: nat, i: PipeIndex, more: seq<Event>): seq<Event>
    requires k <= i
    decreases i - k
  {
    if k == i then more else [Delete(k)] + DeleteBelow(k + 1, i, more)
  }

  /** That makes pipe i the first to match any of its ids, and leaves it alone. */
  lemma {:induction false} FirstInLine(s: State, k: nat, i: PipeIndex, more: seq<Event>) returns (t: State)
    requires Registry(s) && k <= i && s.tbl[i].inUse == IN_USE
    requires forall j | 0 <= j < k :: s.tbl[j].inUse != IN_USE
    ensures Registry(t) && t.tbl[i] == s.tbl[i]
    ensures forall j | 0 <= j < i :: t.tbl[j].inUse != IN_USE
    ensures Run(s, DeleteBelow(k, i, more)) == Run(t, more)
    ensures Undisturbed(s, DeleteBelow(k, i, more), i) <==> Undisturbed(t, more, i)
    decreases i - k
  {
    if k == i {
      t := s;
    } else {
      var e, es := Delete(k), DeleteBelow(k + 1, i, more);
      StepKeepsRegistry(s, e);
      DeleteStep(s, e);
      assert EntryOk(s.tbl[k], k);
      assert ([e] + es)[1..] == es;
      t := FirstInLine(Step(s, e), k + 1, i, more);
    }
  }

  /** If its ring is not valid, some continuation without a take from pipe i or its deletion changes the
      slot held. */
  lemma InvalidRingOverwritten(s: State, i: PipeIndex) returns (es: seq<Event>)
    requires Registry(s) && s.tbl[i].inUse == IN_USE && s.tbl[i].read < DEPTH && !RingOk(s.tbl[i])
    ensures Undisturbed(s, es, i) && !SlotKept(s, Run(s, es), i)
  {
    var p := s.tbl[i];
    var slot := p.slots[p.read];
    var e := Arrival(Differing(p.subs[0], slot), 3);
    var more := Copies(e, Gap(p.num) + 1);
    es := DeleteBelow(0, i, more);
    var t := FirstInLine(s, 0, i, more);
    assert Route(t.tbl, p.subs[0]) == i;
    Overrun(t, e, i);
    assert Overwrite(slot, e.buffer[..3])[2] == e.buffer[2];
  }

  /** In every state, whatever happened before: the slot a live pipe's caller holds survives every
      continuation without a take from that pipe or its deletion exactly if the ring is valid. */
  lemma HeldIffRingValid(s: State, i: PipeIndex)
    requires Registry(s) && s.tbl[i].inUse == IN_USE && s.tbl[i].read < DEPTH
    ensures (forall es: seq<Event> | Undisturbed(s, es, i) :: SlotKept(s, Run(s, es), i)) <==> RingOk(s.tbl[i])
  {
    if RingOk(s.tbl[i]) {
      forall es: seq<Event> | Undisturbed(s, es, i)
        ensures SlotKept(s, Run(s, es), i)
      {
        HeldMessageStable(s, es, i);
      }
    } else {
      var es := InvalidRingOverwritten(s, i);
    }
  }

  /** For the slot a receive has just returned from a pipe that delivers, this means exactly if the
      receive found an unread message. */
  lemma ReturnedIffUnread(s: State, e: Event, i: PipeIndex)
    requires Delivers(s, i) && s.tbl[i].inUse == IN_USE && TakenFrom(s.tbl, e) == i
    ensures var s' := Step(s, e);
            && s'.tbl[i].read < DEPTH
            && ((forall es: seq<Event> | Undisturbed(s', es, i) :: SlotKept(s', Run(s', es), i)) <==> s.tbl[i].num >= 2)
  {
    ReceiveStep(s, e);
    StepKeepsRegistry(s, e);
    TakeKeepsRing(s.tbl[i]);
    HeldIffRingValid(Step(s, e), i);
  }
}
