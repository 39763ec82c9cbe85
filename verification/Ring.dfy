/**
 One pipe descriptor and its ring discipline: `read` names the slot the user still holds, `num`
 counts that slot plus the unread ones (fsw/src/sbn_client_utils.h:47-63).
 */
module Ring {
  import opened Defs

  type Slots = s: seq<Slot> | |s| == DEPTH witness seq<Slot>(DEPTH, _ => Blank())
  type Subs = s: seq<uint16> | |s| == MAX_MSG_IDS witness seq(MAX_MSG_IDS, _ => 0)

  datatype Pipe = Pipe(inUse: uint8, pipeId: uint8, num: uint32, read: uint32, slots: Slots, subs: Subs)

  /** The slot k places after `read`. */
  function SlotAt(read: nat, k: nat): (r: nat)
    ensures r < DEPTH
    ensures read < DEPTH && k <= DEPTH ==> r == if read + k < DEPTH then read + k else read + k - DEPTH
  {
    (read + k) % DEPTH
  }

  /** Where the next message goes; the sum is a uint32 sum. */
  function EntryPoint(p: Pipe): (r: nat)
    ensures r < DEPTH
    ensures RingOk(p) ==> r == SlotAt(p.read, p.num)
  {
    (p.read + p.num) % 0x1_0000_0000 % DEPTH
  }

  /** memcpy of `m` over the front of a slot. */
  function Overwrite(slot: Slot, m: seq<uint8>): (r: Slot)
    requires |m| <= MAX_MESSAGE_SIZE
    ensures m <= r
    ensures r[|m|..] == slot[|m|..]
  {
    m + slot[|m|..]
  }

  function Put(p: Pipe, m: seq<uint8>): Pipe
    requires |m| <= MAX_MESSAGE_SIZE
  {
    var e := EntryPoint(p);
    p.(slots := p.slots[e := Overwrite(p.slots[e], m)], num := Inc32(p.num))
  }

  /** Advance to the next slot, then count one message less (a uint32 decrement). */
  function Take(p: Pipe): Pipe {
    p.(read := Inc32(p.read) % DEPTH, num := Dec32(p.num))
  }

  /** invalidate_pipe: the message bytes stay as they are. */
  function Invalidate(p: Pipe): Pipe {
    p.(inUse := NOT_IN_USE, pipeId := INVALID_PIPE, num := 1, read := DEPTH - 1,
       subs := NoSubs())
  }

  function NoSubs(): Subs {
    seq(MAX_MSG_IDS, _ => INVALID_MSG_ID)
  }

  /** Free, without id or subscriptions, one message held in the last slot; the stored bytes are kept. */
  lemma InvalidatedPipe(p: Pipe)
    ensures Invalidate(p) == Pipe(0, 0xFF, 1, 31, p.slots, [0, 0, 0, 0])
  {
    assert NoSubs() == [0, 0, 0, 0];
  }

  predicate RingOk(p: Pipe) {
    1 <= p.num <= DEPTH && p.read < DEPTH
  }

  /** The ring as invalidate_pipe leaves it: nothing unread, the last slot held. */
  predicate RingStart(p: Pipe) {
    p.num == 1 && p.read == DEPTH - 1
  }

  /** Use, id and subscriptions of the table entry with index i, whatever state its ring is in. */
  predicate EntryOk(p: Pipe, i: nat) {
    && (p.inUse == NOT_IN_USE || p.inUse == IN_USE)
    && (p.inUse == IN_USE ==> p.pipeId == i)
    && (p.inUse == NOT_IN_USE ==> p.pipeId == INVALID_PIPE && p.subs == NoSubs())
  }

  /** The whole intended state of that entry: if unused, exactly the invalidated one. */
  predicate PipeOk(p: Pipe, i: nat) {
    && EntryOk(p, i)
    && (if p.inUse == IN_USE then RingOk(p) else p == Invalidate(p))
  }

  lemma SlotsDistinct(read: nat, j: nat, k: nat)
    requires read < DEPTH && j < k < j + DEPTH && k <= DEPTH
    ensures SlotAt(read, j) != SlotAt(read, k)
  {
  }

  /** A take restores the ring invariant exactly when there was an unread message, and it leaves
      the entry point where it was. */
  lemma TakeKeepsRing(p: Pipe)
    requires RingOk(p)
    ensures RingOk(Take(p)) <==> p.num >= 2
    ensures p.num >= 2 ==> EntryPoint(Take(p)) == EntryPoint(p)
    ensures Take(p).read == SlotAt(p.read, 1) && Take(p).slots == p.slots
  {
  }

  /** In any ring, valid or not, a take moves one slot on around the ring and counts one message less,
      wrapping at zero; and the wrap-around of the uint32 sum does not show in the entry point. */
  lemma CountersOfAnyRing(p: Pipe)
    requires p.read < DEPTH
    ensures Take(p) == p.(read := if p.read == 31 then 0 else p.read + 1,
                          num := if p.num == 0 then 0xFFFF_FFFF else p.num - 1)
    ensures EntryPoint(p) == (p.read + p.num) % 32
  {
  }

  /** Two takes that each found nothing unread wrap the counter: the pipe then counts
      2^32 - 1 messages, and the overflow test `num == DEPTH` no longer guards it. */
  lemma TakeTwiceWraps(p: Pipe)
    requires RingOk(p) && p.num == 1
    ensures Take(p).num == 0 && Take(Take(p)).num == 0xFFFF_FFFF
  {
  }

  /** The next message goes over the held slot exactly when the count is a multiple of the depth, as it
      is after a take that found nothing unread. */
  lemma EntryIsHeld(p: Pipe)
    requires p.read < DEPTH
    ensures EntryPoint(p) == p.read <==> p.num % DEPTH == 0
  {
  }

  /** The unread slots Read+1 .. Read+Num-1 in ring order. */
  function Unread(p: Pipe): seq<Slot> {
    seq<Slot>(if p.num == 0 then 0 else p.num - 1, k requires 0 <= k => p.slots[SlotAt(p.read, k + 1)])
  }

  /** The ring is a queue: an enqueue appends to the unread slots, touching neither them nor the
      held slot. */
  lemma PutAppends(p: Pipe, m: seq<uint8>)
    requires RingOk(p) && p.num < DEPTH && |m| <= MAX_MESSAGE_SIZE
    ensures RingOk(Put(p, m))
    ensures Put(p, m).slots[p.read] == p.slots[p.read]
    ensures Unread(Put(p, m)) == Unread(p) + [Overwrite(p.slots[EntryPoint(p)], m)]
  {
    forall k | 0 <= k < p.num
      ensures SlotAt(p.read, k) != EntryPoint(p)
    {
      SlotsDistinct(p.read, k, p.num);
    }
    assert SlotAt(p.read, 0) == p.read;
  }

  /** ... and a take removes the first unread slot, which becomes the held one. */
  lemma TakeRemovesFirst(p: Pipe)
    requires RingOk(p) && p.num >= 2
    ensures RingOk(Take(p))
    ensures Unread(p) == [Take(p).slots[Take(p).read]] + Unread(Take(p))
  {
    TakeKeepsRing(p);
    var rest := [Take(p).slots[Take(p).read]] + Unread(Take(p));
    forall k | 0 <= k < p.num - 1
      ensures Unread(p)[k] == rest[k]
    {
      if k > 0 {
        assert SlotAt(Take(p).read, k) == SlotAt(p.read, k + 1);
        assert rest[k] == Unread(Take(p))[k - 1];
      }
    }
  }
}
