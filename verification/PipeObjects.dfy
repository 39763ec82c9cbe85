/**
 The pipe table as the client keeps it, changed in place, and the operations that change it. Each
 method is proved to do to the table's value what the function of the same name in Table does.
 */
module PipeObjects {
  import opened Defs
  import opened Ring
  import Table
  import Deadline
  import Framing

  /** CFE_SBN_Client_PipeD_t. */
  class PipeD {
    var inUse: uint8
    var pipeId: uint8
    var numberOfMessages: uint32
    var readMessage: uint32
    const messages: array2<uint8>
    const subscribedMsgIds: array<uint16>

    ghost predicate Valid() {
      && messages.Length0 == DEPTH && messages.Length1 == MAX_MESSAGE_SIZE
      && subscribedMsgIds.Length == MAX_MSG_IDS
    }

    ghost function Row(i: nat): Slot
      requires Valid() && i < DEPTH
      reads messages
    {
      seq(MAX_MESSAGE_SIZE, j requires 0 <= j < MAX_MESSAGE_SIZE reads messages => messages[i, j])
    }

    ghost function View(): Pipe
      requires Valid()
      reads this, messages, subscribedMsgIds
    {
      Pipe(inUse, pipeId, numberOfMessages, readMessage,
           seq<Slot>(DEPTH, i requires 0 <= i < DEPTH reads messages => Row(i)),
           subscribedMsgIds[..])
    }

    constructor ()
      ensures Valid() && fresh(messages) && fresh(subscribedMsgIds)
    {
      inUse, pipeId, numberOfMessages, readMessage := 0, 0, 0, 0;
      messages := new uint8[DEPTH, MAX_MESSAGE_SIZE];
      subscribedMsgIds := new uint16[MAX_MSG_IDS];
    }

    /** message_entry_point: in a pipe with room it is neither the held slot (k = 0) nor an unread
        one, so an enqueue overwrites nothing. */
    function EntryPoint(): (r: nat)
      reads this
      ensures r < DEPTH
      ensures readMessage < DEPTH && 1 <= numberOfMessages < DEPTH ==>
                forall k | 0 <= k < numberOfMessages :: r != SlotAt(readMessage, k)
    {
      (readMessage + numberOfMessages) % 0x1_0000_0000 % DEPTH
    }

    /** invalidate_pipe. */
    method Invalidate()
      requires Valid()
      modifies this, subscribedMsgIds
      ensures View() == Ring.Invalidate(old(View()))
    {
      inUse := NOT_IN_USE;
      pipeId := INVALID_PIPE;
      numberOfMessages := 1;
      readMessage := DEPTH - 1;
      var i := 0;
      while i < MAX_MSG_IDS
        invariant 0 <= i <= MAX_MSG_IDS
        invariant forall k | 0 <= k < i :: subscribedMsgIds[k] == INVALID_MSG_ID
        modifies subscribedMsgIds
      {
        subscribedMsgIds[i] := INVALID_MSG_ID;
        i := i + 1;
      }
      assert View().slots == old(View()).slots;
    }

    /** The fields CreatePipe sets. */
    method Claim(i: uint8)
      requires Valid()
      modifies this`inUse, this`pipeId
      ensures View() == old(View()).(inUse := IN_USE, pipeId := i)
    {
      inUse := IN_USE;
      pipeId := i;
      assert View().slots == old(View()).slots;
    }

    /** The array element Subscribe sets. */
    method SetSubscription(k: nat, msgId: uint16)
      requires Valid() && k < MAX_MSG_IDS
      modifies subscribedMsgIds
      ensures View() == old(View()).(subs := old(View()).subs[k := msgId])
    {
      subscribedMsgIds[k] := msgId;
      assert View().slots == old(View()).slots;
    }

    /** The enqueue of ingest_app_message: memcpy into the entry slot, then count it. */
    method Put(buffer: array<uint8>, size: MsgSize)
      requires Valid() && buffer.Length == MAX_MESSAGE_SIZE
      modifies this`numberOfMessages, messages
      ensures View() == Ring.Put(old(View()), buffer[..size])
    {
      ghost var was := View();
      var e := EntryPoint();
      assert e == Ring.EntryPoint(was);
      forall j | 0 <= j < size {
        messages[e, j] := buffer[j];
      }
      numberOfMessages := Inc32(numberOfMessages);
      assert Row(e) == Overwrite(was.slots[e], buffer[..size]);
      assert forall k | 0 <= k < DEPTH && k != e :: Row(k) == was.slots[k];
      assert View().slots == was.slots[e := Row(e)];
    }

    /** The take of RcvMsg; returns the slot whose address the caller gets. */
    method Take() returns (slot: nat)
      requires Valid()
      modifies this`numberOfMessages, this`readMessage
      ensures View() == Ring.Take(old(View()))
      ensures slot == View().read
    {
      readMessage := Inc32(readMessage) % DEPTH;
      slot := readMessage;
      numberOfMessages := Dec32(numberOfMessages);
      assert View().slots == old(View()).slots;
    }
  }

  /** The table itself and the functions that work on it. */
  class PipeTbl {
    const pipes: seq<PipeD>
    ghost const Repr: set<object>

    ghost predicate Valid() {
      && |pipes| == MAX_PIPES
      && (forall i | 0 <= i < MAX_PIPES :: pipes[i].Valid())
      && (forall i | 0 <= i < MAX_PIPES ::
            pipes[i] in Repr && pipes[i].messages in Repr && pipes[i].subscribedMsgIds in Repr)
      && (forall i, j | 0 <= i < j < MAX_PIPES ::
            && pipes[i] != pipes[j]
            && pipes[i].messages != pipes[j].messages
            && pipes[i].subscribedMsgIds != pipes[j].subscribedMsgIds)
    }

    ghost function View(): Table.PipeTable
      requires Valid()
      reads Repr
    {
      seq<Pipe>(MAX_PIPES, i requires 0 <= i < MAX_PIPES reads Repr => pipes[i].View())
    }

    /** Only pipe i has changed since the state at the label or, without one, since the start. */
    twostate lemma OnePipeChanged(i: PipeIndex)
      requires Valid()
      requires forall k | 0 <= k < MAX_PIPES && k != i ::
          unchanged(pipes[k]) && unchanged(pipes[k].messages) && unchanged(pipes[k].subscribedMsgIds)
      ensures View() == old(View())[i := pipes[i].View()]
    {
      assert forall k | 0 <= k < MAX_PIPES && k != i :: pipes[k].View().slots == old(pipes[k].View()).slots;
    }

    /** Nothing of the table has changed. */
    twostate lemma Untouched()
      requires Valid() && unchanged(Repr)
      ensures View() == old(View())
    {
    }

    /** Static storage: zeroed counters, whatever is in the slots. */
    constructor ()
      ensures Valid() && fresh(Repr)
    {
      var ps: seq<PipeD> := [];
      ghost var repr: set<object> := {};
      while |ps| < MAX_PIPES
        invariant |ps| <= MAX_PIPES && fresh(repr)
        invariant forall i | 0 <= i < |ps| ::
            ps[i].Valid() && ps[i] in repr && ps[i].messages in repr && ps[i].subscribedMsgIds in repr
        invariant forall i, j | 0 <= i < j < |ps| ::
            ps[i] != ps[j] && ps[i].messages != ps[j].messages && ps[i].subscribedMsgIds != ps[j].subscribedMsgIds
      {
        var p := new PipeD();
        ps := ps + [p];
        repr := repr + {p, p.messages, p.subscribedMsgIds};
      }
      pipes, Repr := ps, repr;
    }

    /** CFE_SBN_Client_InitPipeTbl. */
    method InitPipeTbl()
      requires Valid()
      modifies Repr
      ensures View() == Table.InitPipeTbl(old(View()))
    {
      ghost var was := View();
      var i := 0;
      while i < MAX_PIPES
        invariant 0 <= i <= MAX_PIPES
        invariant forall k | 0 <= k < i :: View()[k] == Ring.Invalidate(was[k])
        invariant forall k | i <= k < MAX_PIPES :: View()[k] == was[k]
      {
        pipes[i].Invalidate();
        i := i + 1;
      }
    }

    /** CFE_SBN_Client_GetAvailPipeIdx. */
    method GetAvailPipeIdx() returns (r: uint8)
      requires Valid()
      ensures r == Table.GetAvailPipeIdx(View())
    {
      var i := 0;
      while i < MAX_PIPES
        invariant 0 <= i <= MAX_PIPES
        invariant forall k | 0 <= k < i :: View()[k].inUse != NOT_IN_USE
      {
        if pipes[i].inUse == NOT_IN_USE {
          assert View()[i].inUse == NOT_IN_USE;
          return i;
        }
        i := i + 1;
      }
      return INVALID_PIPE;
    }

    /** __wrap_CFE_SB_CreatePipe; `id` is None if the pointer is null. */
    method CreatePipe(nullPtr: bool, depth: uint16) returns (status: Status, id: Option<uint8>)
      requires Valid()
      modifies Repr
      ensures Table.Created(View(), status, id) == Table.CreatePipe(old(View()), nullPtr, depth)
    {
      status, id := MaxPipesMet, None;
      if !nullPtr {
        id := Some(INVALID_PIPE);
      }
      if nullPtr || depth > DEPTH || depth == 0 {
        status := BadArgument;
      } else {
        ghost var was := View();
        var i := 0;
        while i < MAX_PIPES
          invariant 0 <= i <= MAX_PIPES
          invariant View() == was && status == MaxPipesMet && id == Some(INVALID_PIPE)
          invariant forall k | 0 <= k < i :: was[k].inUse == IN_USE
        {
          assert was[i] == pipes[i].View();
          if pipes[i].inUse != IN_USE {
            pipes[i].Claim(i);
            OnePipeChanged(i);
            id := Some(i);
            status := Success;
            break;
          }
          i := i + 1;
        }
      }
    }

    /** __wrap_CFE_SB_DeletePipe. */
    method DeletePipe(id: uint8) returns (status: Status)
      requires Valid()
      modifies Repr
      ensures Table.Changed(View(), status) == Table.DeletePipe(old(View()), id)
    {
      ghost var was := View();
      var i := 0;
      while i < MAX_PIPES
        invariant 0 <= i <= MAX_PIPES
        invariant View() == was
        invariant forall k | 0 <= k < i :: was[k].pipeId != id
      {
        assert was[i] == pipes[i].View();
        if pipes[i].pipeId == id {
          assert Table.FirstWithId(was, id) == i;
          if pipes[i].inUse == IN_USE {
            pipes[i].Invalidate();
            OnePipeChanged(i);
            return Success;
          } else {
            return NotInUse;
          }
        }
        i := i + 1;
      }
      return NoSuchPipe;
    }

    /** CFE_SBN_Client_GetPipeIdx; indexing the table with a larger id is undefined in C. */
    method GetPipeIdx(id: PipeIndex) returns (r: uint8)
      requires Valid()
      ensures r == Table.GetPipeIdx(View(), id)
      ensures r == INVALID_PIPE || r < MAX_PIPES
    {
      assert forall k | 0 <= k < MAX_PIPES :: View()[k] == pipes[k].View();
      if pipes[id].pipeId == id && pipes[id].inUse == IN_USE {
        return id;
      }
      var i := 0;
      while i < MAX_PIPES
        invariant 0 <= i <= MAX_PIPES
        invariant forall k | 0 <= k < i :: !Table.Live(View()[k], id)
      {
        if pipes[i].pipeId == id && pipes[i].inUse == IN_USE {
          assert Table.Live(View()[i], id);
          return i;
        }
        i := i + 1;
      }
      return INVALID_PIPE;
    }

    /** CFE_SBN_Client_GetMessageSubscribeIndex. */
    method GetMessageSubscribeIndex(id: PipeIndex) returns (r: uint8)
      requires Valid()
      ensures r == Table.SubscribeIndex(View()[id])
      ensures r == MAX_MSG_IDS_MET || r < MAX_MSG_IDS
    {
      assert View()[id] == pipes[id].View();
      var i := 0;
      while i < MAX_MSG_IDS
        invariant 0 <= i <= MAX_MSG_IDS
        invariant forall k | 0 <= k < i :: View()[id].subs[k] != INVALID_MSG_ID
      {
        if pipes[id].subscribedMsgIds[i] == INVALID_MSG_ID {
          assert View()[id].subs[i] == INVALID_MSG_ID;
          return i;
        }
        i := i + 1;
      }
      return MAX_MSG_IDS_MET;
    }

    /** __wrap_CFE_SB_Subscribe; `sent` is the message to the peer, built from SBN's identification
        string and packing of message ids. */
    method Subscribe(msgId: uint16, id: PipeIndex, ident: seq<uint8>, packMsgId: uint16 -> seq<uint8>)
        returns (status: Status, sent: Option<seq<uint8>>)
      requires Valid()
      modifies Repr
      ensures Table.Changed(View(), status) == Table.Subscribe(old(View()), msgId, id)
      ensures sent == if status == Success then Some(Framing.SubscriptionMessage(ident, packMsgId(msgId))) else None
      ensures sent.Some? ==>
                sent.value == [0, 54, Framing.SUB_MSG, 0, 0, 0, 2] + (ident + [0, 1] + packMsgId(msgId) + [0, 0])
    {
      ghost var was := View();
      var pipeIdx := GetPipeIdx(id);
      if pipeIdx == INVALID_PIPE {
        return BadArgument, None;
      }
      assert was[pipeIdx] == pipes[pipeIdx].View();
      var msgIdIdx := GetMessageSubscribeIndex(id);
      if msgIdIdx == MAX_MSG_IDS_MET {
        return BadArgument, None;
      }
      pipes[pipeIdx].SetSubscription(msgIdIdx, msgId);
      OnePipeChanged(pipeIdx);
      assert View() == was[pipeIdx := was[pipeIdx].(subs := was[pipeIdx].subs[msgIdIdx := msgId])];
      Framing.SubscriptionBytes(ident, packMsgId(msgId));
      return Success, Some(Framing.SubscriptionMessage(ident, packMsgId(msgId)));
    }

    /** ingest_app_message after its read: find the pipe, enqueue, signal. */
    method Ingest(buffer: array<uint8>, size: MsgSize) returns (signal: bool)
      requires Valid() && buffer.Length == MAX_MESSAGE_SIZE && buffer !in Repr
      modifies Repr
      ensures var r := Table.Arrive(old(View()), buffer[..], size);
              View() == r.tbl && signal == r.signal
    {
      ghost var was := View();
      var msgId := Unpack16(buffer[..2]);
      assert buffer[..2] == buffer[..][..2];
      var i := 0;
      while i < MAX_PIPES
        invariant 0 <= i <= MAX_PIPES
        invariant View() == was && msgId == Table.GetMsgId(buffer[..])
        invariant forall k | 0 <= k < i :: !(was[k].inUse == IN_USE && msgId in was[k].subs)
      {
        assert was[i] == pipes[i].View();
        if pipes[i].inUse == IN_USE {
          var j := 0;
          while j < MAX_MSG_IDS
            invariant 0 <= j <= MAX_MSG_IDS
            invariant View() == was
            invariant forall k | 0 <= k < j :: was[i].subs[k] != msgId
          {
            assert was[i].subs[j] == pipes[i].subscribedMsgIds[j];
            if pipes[i].subscribedMsgIds[j] == msgId {
              assert Table.Route(was, msgId) == i;
              if pipes[i].numberOfMessages == DEPTH {
                return false;
              } else {
                pipes[i].Put(buffer, size);
                OnePipeChanged(i);
                assert buffer[..size] == buffer[..][..size];
                return true;
              }
            }
            j := j + 1;
          }
        }
        i := i + 1;
      }
      return false;
    }

    /** __wrap_CFE_SB_RcvMsg up to its wait or its return; a timed wait also gets its deadline. */
    method RcvMsgEnter(nullPtr: bool, id: PipeIndex, timeout: int, enter: Deadline.TimeSpec,
                       lockOk: bool, unlockOk: bool)
        returns (outcome: Table.Outcome, deadline: Option<Deadline.TimeSpec>)
      requires Valid()
      modifies Repr
      ensures var r := Table.RcvEnter(old(View()), nullPtr, id, timeout, lockOk, unlockOk);
              View() == r.tbl && outcome == r.outcome
      ensures deadline == if outcome.Waiting? && timeout != -1
                          then Some(Deadline.FutureTimeout(enter, timeout)) else None
      ensures deadline.Some? && Deadline.Normalised(enter) && timeout <= 0x7FFF_FFFF ==>
                Deadline.IsLater(enter, timeout, deadline.value)
    {
      deadline := None;
      var status := Success;
      var pipeIdx := INVALID_PIPE;
      if nullPtr || timeout < -1 {
        status := BadArgument;
      } else {
        pipeIdx := GetPipeIdx(id);
        if pipeIdx == INVALID_PIPE {
          status := BadArgument;
        }
      }
      if status != Success {
        return Table.Returned(status, Table.Untouched), None;
      }
      assert View()[pipeIdx] == pipes[pipeIdx].View();
      if pipes[pipeIdx].numberOfMessages < 2 && lockOk {
        if timeout == POLL {
          status := NoMessage;
        } else if timeout == PEND_FOREVER {
          return Table.Waiting(pipeIdx), None;
        } else {
          if Deadline.Normalised(enter) && timeout <= 0x7FFF_FFFF {
            Deadline.DeadlineExact(enter, timeout);
          }
          return Table.Waiting(pipeIdx), Some(Deadline.FutureTimeout(enter, timeout));
        }
      }
      if !lockOk {
        outcome := Table.Returned(PipeReadError, Table.Null);
      } else {
        outcome := Finish(pipeIdx, status, unlockOk);
      }
    }

    /** ... and from its wait on. */
    method RcvMsgResume(pipeIdx: PipeIndex, wait: Table.WaitResult, unlockOk: bool) returns (outcome: Table.Outcome)
      requires Valid()
      modifies Repr
      ensures var r := Table.RcvResume(old(View()), pipeIdx, wait, unlockOk);
              View() == r.tbl && outcome == r.outcome
      ensures outcome == Table.Returned(TimeOut, Table.Null) <==> wait.TimedOut? && unlockOk
      ensures outcome == Table.Returned(PipeReadError, Table.Null) <==> wait.WaitFailed? || !unlockOk
      ensures outcome.Returned? && (outcome.status == Success <==> wait.Woken? && unlockOk)
    {
      var status := match wait
        case Woken => Success
        case TimedOut => TimeOut
        case WaitFailed => PipeReadError;
      outcome := Finish(pipeIdx, status, unlockOk);
    }

    /** The common end: take if the status is still success, unlock, clear the pointer on failure. */
    method Finish(pipeIdx: PipeIndex, status: Status, unlockOk: bool) returns (outcome: Table.Outcome)
      requires Valid()
      modifies Repr
      ensures var r := if status == Success then Table.FinishTake(old(View()), pipeIdx, unlockOk)
                       else Table.GiveUp(old(View()), status, unlockOk);
              View() == r.tbl && outcome == r.outcome
    {
      ghost var was := View();
      var result, buf := status, Table.Untouched;
      if result == Success {
        var slot := pipes[pipeIdx].Take();
        OnePipeChanged(pipeIdx);
        buf := Table.SlotOf(pipeIdx, slot);
      }
      if !unlockOk {
        result := PipeReadError;
      }
      if result != Success {
        buf := Table.Null;
      }
      outcome := Table.Returned(result, buf);
    }
  }
}
