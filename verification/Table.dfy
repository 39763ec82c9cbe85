/**
 The pipe table and its operations as functions of the whole table: creation, deletion,
 subscription, routing of an arrived message, and the two halves of a receive.
 */
module Table {
  import opened Defs
  import opened Ring

  type PipeTable = t: seq<Pipe> | |t| == MAX_PIPES
    witness seq<Pipe>(MAX_PIPES, _ => Pipe(0, 0, 0, 0, seq<Slot>(DEPTH, _ => Blank()), seq(MAX_MSG_IDS, _ => 0)))

  /** Use, ids and subscriptions of the table are in order; nothing is said about the rings. */
  ghost predicate EntriesOk(t: PipeTable) {
    forall i | 0 <= i < MAX_PIPES :: EntryOk(t[i], i)
  }

  predicate Live(p: Pipe, id: uint8) {
    p.pipeId == id && p.inUse == IN_USE
  }

  // ---- searches ----

  /** The entry CreatePipe takes: the first that is not IN_USE, or MAX_PIPES. */
  function FirstFree(t: PipeTable): (r: nat)
    ensures r <= MAX_PIPES
    ensures r < MAX_PIPES ==> t[r].inUse != IN_USE
    ensures forall j | 0 <= j < r :: t[j].inUse == IN_USE
  {
    FirstIndex(t, (p: Pipe) => p.inUse != IN_USE)
  }

  /** CFE_SBN_Client_GetAvailPipeIdx. */
  function GetAvailPipeIdx(t: PipeTable): (r: uint8)
    ensures r == INVALID_PIPE || (r < MAX_PIPES && t[r].inUse == NOT_IN_USE)
    ensures forall j | 0 <= j < MAX_PIPES && j < r :: t[j].inUse != NOT_IN_USE
  {
    var i := FirstIndex(t, (p: Pipe) => p.inUse == NOT_IN_USE);
    if i < MAX_PIPES then i else INVALID_PIPE
  }

  /** The linear scan of CFE_SBN_Client_GetPipeIdx. */
  function ScanPipeIdx(t: PipeTable, id: uint8): (r: uint8)
    ensures r == INVALID_PIPE || (r < MAX_PIPES && Live(t[r], id))
    ensures forall j | 0 <= j < MAX_PIPES && j < r :: !Live(t[j], id)
  {
    var i := FirstIndex(t, (p: Pipe) => Live(p, id));
    if i < MAX_PIPES then i else INVALID_PIPE
  }

  /** CFE_SBN_Client_GetPipeIdx: the quick check, then the scan. */
  function GetPipeIdx(t: PipeTable, id: PipeIndex): uint8 {
    if Live(t[id], id) then id else ScanPipeIdx(t, id)
  }

  /** The first entry holding this pipe id, in use or not, or MAX_PIPES. */
  function FirstWithId(t: PipeTable, id: uint8): (r: nat)
    ensures r <= MAX_PIPES
    ensures r < MAX_PIPES ==> t[r].pipeId == id
    ensures forall j | 0 <= j < r :: t[j].pipeId != id
  {
    FirstIndex(t, (p: Pipe) => p.pipeId == id)
  }

  /** CFE_SBN_Client_GetMessageSubscribeIndex for one pipe. */
  function SubscribeIndex(p: Pipe): (r: uint8)
    ensures r == MAX_MSG_IDS_MET || (r < MAX_MSG_IDS && p.subs[r] == INVALID_MSG_ID)
    ensures forall j | 0 <= j < MAX_MSG_IDS && j < r :: p.subs[j] != INVALID_MSG_ID
  {
    var i := FirstIndex(p.subs, (m: uint16) => m == INVALID_MSG_ID);
    if i < MAX_MSG_IDS then i else MAX_MSG_IDS_MET
  }

  /** The lowest-index pipe in use whose subscription array holds the id, or MAX_PIPES. */
  function Route(t: PipeTable, id: uint16): (r: nat)
    ensures r <= MAX_PIPES
    ensures r < MAX_PIPES ==> t[r].inUse == IN_USE && id in t[r].subs
    ensures forall j | 0 <= j < r :: !(t[j].inUse == IN_USE && id in t[j].subs)
  {
    FirstIndex(t, (p: Pipe) => p.inUse == IN_USE && id in p.subs)
  }

  // ---- pipe management ----

  function InitPipeTbl(t: PipeTable): (r: PipeTable) {
    seq<Pipe>(MAX_PIPES, i requires 0 <= i < MAX_PIPES => Invalidate(t[i]))
  }

  /** `id` is what *PipeIdPtr holds afterwards, None when the pointer is null. */
  datatype Created = Created(tbl: PipeTable, status: Status, id: Option<uint8>)

  function CreatePipe(t: PipeTable, nullPtr: bool, depth: uint16): Created {
    if nullPtr then Created(t, BadArgument, None)
    else if depth > DEPTH || depth == 0 then Created(t, BadArgument, Some(INVALID_PIPE))
    else
      var i := FirstFree(t);
      if i == MAX_PIPES then Created(t, MaxPipesMet, Some(INVALID_PIPE))
      else Created(t[i := t[i].(inUse := IN_USE, pipeId := i)], Success, Some(i))
  }

  datatype Changed = Changed(tbl: PipeTable, status: Status)

  function DeletePipe(t: PipeTable, id: uint8): Changed {
    var i := FirstWithId(t, id);
    if i == MAX_PIPES then Changed(t, NoSuchPipe)
    else if t[i].inUse == IN_USE then Changed(t[i := Invalidate(t[i])], Success)
    else Changed(t, NotInUse)
  }

  /** The free position is looked up in the entry with index `id`, but written in the entry with
      index GetPipeIdx(id). */
  function Subscribe(t: PipeTable, msgId: uint16, id: PipeIndex): Changed {
    var pipeIdx := GetPipeIdx(t, id);
    if pipeIdx == INVALID_PIPE then Changed(t, BadArgument)
    else
      var k := SubscribeIndex(t[id]);
      if k == MAX_MSG_IDS_MET then Changed(t, BadArgument)
      else
        GetPipeIdxInRange(t, id);
        Changed(t[pipeIdx := t[pipeIdx].(subs := t[pipeIdx].subs[k := msgId])], Success)
  }

  lemma GetPipeIdxInRange(t: PipeTable, id: PipeIndex)
    ensures var r := GetPipeIdx(t, id); r == INVALID_PIPE || r < MAX_PIPES
  {
  }

  // ---- message arrival ----

  /** Version 1 message id: the first two bytes. */
  function GetMsgId(buffer: Slot): uint16 {
    Unpack16(buffer[..2])
  }

  /** `target` is the pipe that got the message, MAX_PIPES if none did; `signal` says whether
      the received condition was signalled. */
  datatype Arrived = Arrived(tbl: PipeTable, target: nat, signal: bool)

  /** ingest_app_message once ReadBytes has filled the first `size` bytes of its buffer. */
  function Arrive(t: PipeTable, buffer: Slot, size: MsgSize): (r: Arrived)
    ensures r.target <= MAX_PIPES
  {
    var i := Route(t, GetMsgId(buffer));
    if i == MAX_PIPES || t[i].num == DEPTH then Arrived(t, MAX_PIPES, false)
    else Arrived(t[i := Put(t[i], buffer[..size])], i, true)
  }

  // ---- receive ----

  /** What RcvMsg leaves in *BufPtr: nothing written, null, or the address of a slot. */
  datatype BufPtr = Untouched | Null | SlotOf(pipe: nat, slot: nat)

  datatype Outcome = Returned(status: Status, buf: BufPtr) | Waiting(pipe: PipeIndex)

  datatype WaitResult = Woken | TimedOut | WaitFailed

  datatype Received = Received(tbl: PipeTable, outcome: Outcome, took: bool)

  /** Unlock and return without having taken a message. */
  function GiveUp(t: PipeTable, status: Status, unlockOk: bool): Received {
    Received(t, Returned(if unlockOk then status else PipeReadError, Null), false)
  }

  function FinishTake(t: PipeTable, i: PipeIndex, unlockOk: bool): Received {
    var p := Take(t[i]);
    Received(t[i := p],
             if unlockOk then Returned(Success, SlotOf(i, p.read)) else Returned(PipeReadError, Null),
             true)
  }

  /** RcvMsg up to its wait, or to its return if it does not wait. */
  function RcvEnter(t: PipeTable, nullPtr: bool, id: PipeIndex, timeout: int, lockOk: bool, unlockOk: bool): Received {
    if nullPtr || timeout < -1 then Received(t, Returned(BadArgument, Untouched), false)
    else
      var i := GetPipeIdx(t, id);
      if i == INVALID_PIPE then Received(t, Returned(BadArgument, Untouched), false)
      else if !lockOk then Received(t, Returned(PipeReadError, Null), false)
      else
        GetPipeIdxInRange(t, id);
        if t[i].num >= 2 then FinishTake(t, i, unlockOk)
        else if timeout == POLL then GiveUp(t, NoMessage, unlockOk)
        else Received(t, Waiting(i), false)
  }

  /** RcvMsg from its wait on: nothing is checked again. */
  function RcvResume(t: PipeTable, i: PipeIndex, wait: WaitResult, unlockOk: bool): Received {
    match wait
    case Woken => FinishTake(t, i, unlockOk)
    case TimedOut => GiveUp(t, TimeOut, unlockOk)
    case WaitFailed => GiveUp(t, PipeReadError, unlockOk)
  }

  // ---- laws of single operations ----

  /** The lookup's quick check and its scan agree whenever the ids of the live pipes are pairwise
      distinct. */
  lemma LookupAgreement(t: PipeTable, id: PipeIndex)
    requires forall i, j | 0 <= i < j < MAX_PIPES && t[i].inUse == t[j].inUse == IN_USE :: t[i].pipeId != t[j].pipeId
    ensures GetPipeIdx(t, id) == ScanPipeIdx(t, id)
  {
    if Live(t[id], id) {
      assert ScanPipeIdx(t, id) <= id;
    }
  }

  /** Under the table invariant a pipe id is its own index, so Subscribe's two indices name the
      same entry. */
  lemma LookupIsIdentity(t: PipeTable, id: PipeIndex)
    requires EntriesOk(t)
    ensures GetPipeIdx(t, id) == if t[id].inUse == IN_USE then id else INVALID_PIPE
    ensures GetPipeIdx(t, id) == ScanPipeIdx(t, id)
  {
    forall i, j | 0 <= i < j < MAX_PIPES && t[i].inUse == t[j].inUse == IN_USE
      ensures t[i].pipeId != t[j].pipeId
    {
      assert EntryOk(t[i], i) && EntryOk(t[j], j);
    }
    LookupAgreement(t, id);
    var r := GetPipeIdx(t, id);
    GetPipeIdxInRange(t, id);
    assert EntryOk(t[id], id);
    if r != INVALID_PIPE {
      assert EntryOk(t[r], r);
    }
  }

  /** Deletion by id hits exactly the live pipe of that index. The id of an unused entry is the
      invalid id, so NotInUse is the answer to that id alone. */
  lemma DeleteHitsOwnIndex(t: PipeTable, id: uint8)
    requires EntriesOk(t)
    ensures DeletePipe(t, id).status == Success <==> id < MAX_PIPES && t[id].inUse == IN_USE
    ensures DeletePipe(t, id).tbl ==
            if id < MAX_PIPES && t[id].inUse == IN_USE then t[id := Invalidate(t[id])] else t
    ensures DeletePipe(t, id).status == NotInUse
            <==> id == 0xFF && exists j | 0 <= j < MAX_PIPES :: t[j].inUse == NOT_IN_USE
    ensures DeletePipe(t, id).status in {Success, NotInUse, NoSuchPipe}
  {
    assert forall j | 0 <= j < MAX_PIPES :: EntryOk(t[j], j);
    var i := FirstWithId(t, id);
    if i < MAX_PIPES {
      assert EntryOk(t[i], i);
    }
    if id < MAX_PIPES {
      assert EntryOk(t[id], id);
    }
  }

  /** CreatePipe hands out what GetAvailPipeIdx would, and refuses valid arguments exactly when
      every pipe is in use. */
  lemma CreateUsesAvailable(t: PipeTable, depth: uint16)
    requires EntriesOk(t) && 0 < depth <= DEPTH
    ensures var c := CreatePipe(t, false, depth);
            && c.id == Some(GetAvailPipeIdx(t))
            && (c.status == MaxPipesMet <==> forall i | 0 <= i < MAX_PIPES :: t[i].inUse == IN_USE)
            && (c.status == Success <==> exists i | 0 <= i < MAX_PIPES :: t[i].inUse == NOT_IN_USE)
  {
    var f, a := FirstFree(t), GetAvailPipeIdx(t);
    if f < MAX_PIPES {
      assert EntryOk(t[f], f);
      assert t[f].inUse == NOT_IN_USE;
    }
  }

  /** A refused create changes nothing and leaves the invalid id behind the pointer, if there is one. */
  lemma CreateRefused(t: PipeTable, nullPtr: bool, depth: uint16)
    requires EntriesOk(t)
    ensures var c := CreatePipe(t, nullPtr, depth);
            && (c.status == BadArgument <==> nullPtr || depth == 0 || depth > 32)
            && (c.status != Success <==> c.tbl == t)
            && (c.status != Success ==> c.id == if nullPtr then None else Some(0xFF))
  {
    var i := FirstFree(t);
    if i < MAX_PIPES {
      assert EntryOk(t[i], i);
    }
  }

  /** A created pipe starts without subscriptions, and with an empty ring exactly if its entry had
      one: CreatePipe resets neither, but relies on the entry having been invalidated. */
  lemma CreatedPipeIsFresh(t: PipeTable, depth: uint16)
    requires EntriesOk(t) && CreatePipe(t, false, depth).status == Success
    ensures var i := FirstFree(t);
            var p := CreatePipe(t, false, depth).tbl[i];
            && t[i].inUse == 0 && p.inUse == 1 && EntryOk(p, i)
            && p.subs == NoSubs()
            && (RingStart(p) <==> PipeOk(t[i], i))
  {
    var i := FirstFree(t);
    assert EntryOk(t[i], i);
  }

  /** For every outcome of lock, wait and unlock a receive either takes exactly one message or
      leaves the whole table alone; the caller sees a slot address exactly on success, and that
      slot is the one now held. Only an unlock failure hides a taken message from the caller. From the
      wait on: an expired wait is a time-out; a failed wait or unlock, after a take too, is a read error. */
  lemma ReceiveOutcomes(t: PipeTable, nullPtr: bool, id: PipeIndex, timeout: int, lockOk: bool, wait: WaitResult,
                        unlockOk: bool)
    requires EntriesOk(t)
    ensures OneOrNone(t, id, RcvEnter(t, nullPtr, id, timeout, lockOk, unlockOk), unlockOk)
    ensures OneOrNone(t, id, RcvResume(t, id, wait, unlockOk), unlockOk)
    ensures var r := RcvResume(t, id, wait, unlockOk);
            && (r.took <==> wait.Woken?)
            && (r.outcome == Returned(TimeOut, Null) <==> wait.TimedOut? && unlockOk)
            && (r.outcome == Returned(PipeReadError, Null) <==> wait.WaitFailed? || !unlockOk)
            && (r.outcome == Returned(Success, SlotOf(id, r.tbl[id].read)) <==> wait.Woken? && unlockOk)
  {
    LookupIsIdentity(t, id);
  }

  /** When each outcome of the first half occurs: a bad argument leaves the caller's pointer as it
      was, any other failure clears it; a message is taken exactly when the lock is held and one is
      unread; a wait starts exactly when none is and the call may block; a lock or unlock that fails is a
      read error. */
  lemma EnterOutcomes(t: PipeTable, nullPtr: bool, id: PipeIndex, timeout: int, lockOk: bool, unlockOk: bool)
    requires EntriesOk(t)
    ensures var r := RcvEnter(t, nullPtr, id, timeout, lockOk, unlockOk);
            var valid := !nullPtr && timeout >= -1 && t[id].inUse == IN_USE;
            var empty := t[id].num < 2;
            && (r.outcome == Returned(BadArgument, Untouched) <==> !valid)
            && (r.took <==> valid && lockOk && !empty)
            && (r.outcome == Waiting(id) <==> valid && lockOk && empty && timeout != 0)
            && (r.outcome == Returned(NoMessage, Null) <==> valid && lockOk && empty && timeout == 0 && unlockOk)
            && (r.outcome == Returned(PipeReadError, Null)
                <==> valid && (!lockOk || (!unlockOk && (!empty || timeout == 0))))
            && (r.outcome == Returned(Success, SlotOf(id, r.tbl[id].read)) <==> valid && lockOk && !empty && unlockOk)
            && (r.outcome.Waiting? ==> r.outcome == Waiting(id))
  {
    LookupIsIdentity(t, id);
  }

  ghost predicate OneOrNone(t: PipeTable, id: PipeIndex, r: Received, unlockOk: bool) {
    && (r.took ==> r.tbl == t[id := Take(t[id])] && r.outcome.Returned?)
    && (!r.took ==> r.tbl == t)
    && (r.outcome.Returned? ==>
          && (r.outcome.buf.SlotOf? <==> r.outcome.status == Success)
          && (r.outcome.status == Success <==> r.took && unlockOk)
          && (r.outcome.buf.SlotOf? ==> r.outcome.buf == SlotOf(id, r.tbl[id].read)))
  }

  /** An arrival changes at most one pipe, and in it one slot and the count; the condition is
      signalled exactly when it does. */
  lemma ArriveFrame(t: PipeTable, buffer: Slot, size: MsgSize)
    ensures var r := Arrive(t, buffer, size);
            && (r.signal <==> r.target < MAX_PIPES)
            && (r.signal <==> r.tbl != t)
            && (forall i | 0 <= i < MAX_PIPES && i != r.target :: r.tbl[i] == t[i])
            && (r.signal ==>
                  var p, q := t[r.target], r.tbl[r.target];
                  && p.inUse == IN_USE
                  && q == p.(num := Inc32(p.num), slots := q.slots)
                  && buffer[..size] <= q.slots[EntryPoint(p)]
                  && (forall k | 0 <= k < DEPTH && k != EntryPoint(p) :: q.slots[k] == p.slots[k])
                  && (RingOk(p) ==> EntryPoint(p) == SlotAt(p.read, p.num) && q.num == p.num + 1 <= DEPTH))
  {
    var r := Arrive(t, buffer, size);
    if r.signal {
      assert r.tbl[r.target].num != t[r.target].num;
    }
  }
}
