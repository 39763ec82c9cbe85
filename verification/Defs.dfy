/**
 Constants, integer widths and status values of the client
 (fsw/src/sbn_client_defs.h, fsw/src/sbn_client.h).
 */
module Defs {

  const MAX_PIPES: nat := 5
  const DEPTH: nat := 32
  const MAX_MSG_IDS: nat := 4
  // The platform's software bus limit; 0x8000 is what the unit tests call a full size message.
  const MAX_MESSAGE_SIZE: nat := 0x8000
  // 16 bits of size, 8 bits of type, 32 bits of processor id
  const PACKED_HDR_SZ: nat := 7

  const NOT_IN_USE: uint8 := 0
  const IN_USE: uint8 := 1
  const INVALID_PIPE: uint8 := 0xFF
  const MAX_MSG_IDS_MET: uint8 := 0xFF
  const INVALID_MSG_ID: uint16 := 0
  const POLL: int := 0
  const PEND_FOREVER: int := -1
  const MAX_CONSECUTIVE_ERRORS: nat := 5

  type uint8 = x: int | 0 <= x < 0x100
  type uint16 = x: int | 0 <= x < 0x1_0000
  type uint32 = x: int | 0 <= x < 0x1_0000_0000

  /** uint32 decrement and increment, with C's wrap-around. */
  function Dec32(x: uint32): (r: uint32)
    ensures r == if x == 0 then 0xFFFF_FFFF else x - 1
  {
    (x + 0xFFFF_FFFF) % 0x1_0000_0000
  }

  function Inc32(x: uint32): (r: uint32)
    ensures r == if x == 0xFFFF_FFFF then 0 else x + 1
  {
    (x + 1) % 0x1_0000_0000
  }

  /** A 16-bit word in network byte order. */
  function Pack16(x: uint16): (b: seq<uint8>)
    ensures |b| == 2
  {
    [x / 0x100, x % 0x100]
  }

  function Unpack16(b: seq<uint8>): uint16
    requires |b| == 2
  {
    (b[0] as int) * 0x100 + b[1]
  }

  /** The first byte is the high one; 0x80 0x00 is the full size of 0x8000. */
  lemma HighByteFirst(x: uint16, hi: uint8, lo: uint8)
    ensures var b := Pack16(x); (b[0] as int) * 0x100 + b[1] == x
    ensures Unpack16([hi, lo]) == (hi as int) * 0x100 + lo
    ensures Unpack16([0x80, 0]) == 0x8000 == MAX_MESSAGE_SIZE
  {
    assert x == 0x100 * (x / 0x100) + x % 0x100;
  }

  type PipeIndex = i: int | 0 <= i < MAX_PIPES
  type MsgSize = n: int | 0 <= n <= MAX_MESSAGE_SIZE

  /** One slot of a ring, or a message buffer on the receiver's stack: always full width. */
  type Slot = s: seq<uint8> | |s| == MAX_MESSAGE_SIZE witness seq(MAX_MESSAGE_SIZE, _ => 0)

  function Blank(): Slot {
    seq(MAX_MESSAGE_SIZE, _ => 0)
  }

  datatype Option<+T> = None | Some(value: T)

  /** CFE_SBN_CLIENT_BAD_ARGUMENT is CFE_SB_BAD_ARGUMENT, so the two share a constructor.
      NotInUse and NoSuchPipe are DeletePipe's -1 and -2. */
  datatype Status =
    | Success
    | BadArgument
    | MaxPipesMet
    | NotInUse
    | NoSuchPipe
    | NoMessage
    | TimeOut
    | PipeReadError
    | PipeBroken
    | PipeClosed
    | EventError
    | MessageTooBig
    | BufferAllocError

  /** The lowest index from `from` on whose element satisfies `p`, or |s| if there is none. */
  function FirstIndex<T>(s: seq<T>, p: T -> bool, from: nat := 0): (r: nat)
    requires from <= |s|
    ensures from <= r <= |s|
    ensures r < |s| ==> p(s[r])
    ensures forall j | from <= j < r :: !p(s[j])
    decreases |s| - from
  {
    if from == |s| || p(s[from]) then from else FirstIndex(s, p, from + 1)
  }

  lemma Regroup<T>(a: seq<T>, b: seq<T>, c: seq<T>)
    ensures a + (b + c) == (a + b) + c
  {
  }

  lemma EmptyBoth<T>(a: seq<T>)
    ensures [] + a == a && a + [] == a
  {
  }

  lemma SplitBack<T>(a: seq<T>, b: seq<T>)
    ensures (a + b)[..|a|] == a && (a + b)[|a|..] == b
  {
  }
}
