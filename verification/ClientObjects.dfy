/**
 The frame printer, the frame parser and the receive loop in place, each proved against the functions
 of Framing and Reception.
 */
module ClientObjects {
  import opened Defs
  import opened PipeObjects
  import opened SocketObjects
  import Table
  import opened Stream
  import opened Framing
  import opened Runs
  import opened RunLaws
  import opened Reception
  import opened EndToEnd

  /** Pack_UInt8, Pack_UInt16 and Pack_UInt32 append to a buffer at a running position. */
  method Pack(buf: array<uint8>, used: nat, bytes: seq<uint8>) returns (used': nat)
    requires used + |bytes| <= buf.Length
    modifies buf
    ensures used' == used + |bytes| && Written(old(buf[..]), buf[..], used, bytes)
  {
    forall j | 0 <= j < |bytes| {
      buf[used + j] := bytes[j];
    }
    used' := used + |bytes|;
  }

  /** The globals: the pipe table, the connection, the processor id and the threads' run flags. */
  class Client {
    const table: PipeTbl
    const sock: Socket
    var cpuId: int
    var continueHeartbeat: bool
    var continueReceiveCheck: bool

    constructor (s: Script)
      ensures Valid() && fresh(table.Repr) && fresh(sock) && sock.script == s
      ensures continueHeartbeat && continueReceiveCheck
    {
      table := new PipeTbl();
      sock := new Socket(s);
      cpuId := 0;
      continueHeartbeat, continueReceiveCheck := true, true;
    }

    ghost predicate Valid() {
      table.Valid() && sock !in table.Repr && this !in table.Repr
    }

    /** __wrap_CFE_SB_SendMsg on the memory at `msg`; `written` is what write returns. */
    method SendMsg(msg: array<uint8>, written: int) returns (status: Status, frame: seq<uint8>)
      requires msg.Length >= CCSDS_PRIMARY_HDR_SZ && msg.Length >= TotalMsgLength(msg[..])
      ensures Sent(status, frame) == Framing.SendMsg(msg[..], cpuId, written)
      ensures SendsFront(msg[..], cpuId, written, Sent(status, frame))
    {
      assert msg[4..6] == msg[..][4..6];
      var size := (Unpack16(msg[4..6]) as int + 7) % 0x1_0000;
      var total := size + PACKED_HDR_SZ;
      if total > MAX_MESSAGE_SIZE {
        SendByBytes(msg[..], cpuId, written);
        return MessageTooBig, [];
      }
      var buffer := new uint8[total];
      ghost var was := buffer[..];
      var used := Pack(buffer, 0, Pack16(size));
      ghost var b := buffer[..];
      used := Pack(buffer, used, [APP_MSG]);
      WriteMore(was, b, Pack16(size), buffer[..], [APP_MSG]);
      b := buffer[..];
      used := Pack(buffer, used, Pack32(cpuId % 0x1_0000_0000));
      WriteMore(was, b, Pack16(size) + [APP_MSG], buffer[..], Pack32(cpuId % 0x1_0000_0000));
      b := buffer[..];
      used := Pack(buffer, used, msg[..size]);
      WriteMore(was, b, PackHeader(Header(size, APP_MSG, cpuId % 0x1_0000_0000)), buffer[..], msg[..size]);
      frame := buffer[..];
      WrittenFront(was, frame, PackHeader(Header(size, APP_MSG, cpuId % 0x1_0000_0000)) + msg[..size]);
      assert msg[..size] == msg[..][..size];
      assert frame == PackHeader(Header(size, APP_MSG, cpuId % 0x1_0000_0000)) + msg[..][..size];
      assert Sent(if written != |frame| then BufferAllocError else Success, frame)
          == Framing.SendMsg(msg[..], cpuId, written);
      status := if written != total then BufferAllocError else Success;
      SendByBytes(msg[..], cpuId, written);
    }

    /** ingest_app_message. Its buffer starts with arbitrary contents; `arrival` is the one arrival
        this amounts to, or none if the payload could not be read. */
    method IngestAppMessage(size: uint16) returns (signal: bool, ghost arrival: seq<Event>)
      requires Valid()
      modifies sock, table.Repr
      ensures var r := Stream.ReadBytes(old(sock.script), size);
              && sock.script == r.rest
              && Amounts(old(table.View()), table.View(), arrival)
              && Arrivals(arrival) == (if r.status == Success then [r.bytes] else [])
              && (signal <==>
                    arrival != [] && Table.Arrive(old(table.View()), arrival[0].buffer, arrival[0].size).signal)
    {
      var buffer := new uint8[MAX_MESSAGE_SIZE];
      ghost var r := Stream.ReadBytes(sock.script, size);
      ghost var was := buffer[..];
      var status := sock.ReadBytes(buffer, size);
      if status != Success {
        return false, [];
      }
      table.Untouched();
      WrittenFront(was, buffer[..], r.bytes);
      arrival := [Arrival(buffer[..], size)];
      OneArrival(table.View(), arrival[0]);
      signal := table.Ingest(buffer, size);
    }

    /** recv_msg. */
    method RecvMsg() returns (status: Status, ghost arrival: seq<Event>)
      requires Valid()
      modifies sock, table.Repr
      ensures var p := Parse(old(sock.script));
              && status == p.status && sock.script == p.rest
              && Amounts(old(table.View()), table.View(), arrival) && Arrivals(arrival) == AppOf(p)
    {
      arrival := [];
      var header := new uint8[PACKED_HDR_SZ];
      ghost var h := Stream.ReadBytes(sock.script, PACKED_HDR_SZ);
      ghost var was := header[..];
      status := sock.ReadBytes(header, PACKED_HDR_SZ);
      table.Untouched();
      if status == Success {
        WrittenFront(was, header[..], h.bytes);
        var hdr := UnpackHeader(header[..]);
        if Discarded(hdr.kind) {
          var msg := new uint8[MAX_MESSAGE_SIZE];
          status := sock.ReadBytes(msg, hdr.size);
          table.Untouched();
        } else if hdr.kind == APP_MSG {
          var signal;
          signal, arrival := IngestAppMessage(hdr.size);
          status := Success;
        } else {
          status := EventError;
        }
      }
    }

    /** SBN_Client_ReceiveMinder. It ends for every input. `flags` traces the two run flags, heartbeat
        and receive, after each call: both keep their values until the last call and are cleared
        together by it. Entered with the receive flag cleared it does nothing. */
    method ReceiveMinder()
        returns (ghost statuses: seq<Status>, ghost arrivals: seq<Event>, ghost flags: seq<(bool, bool)>)
      requires Valid()
      modifies this`continueHeartbeat, this`continueReceiveCheck, sock, table.Repr
      ensures var r := Receive(old(sock.script), if old(continueReceiveCheck) then 0 else MAX_CONSECUTIVE_ERRORS);
              && statuses == r.statuses && sock.script == r.rest
              && Amounts(old(table.View()), table.View(), arrivals) && Arrivals(arrivals) == r.apps
      ensures old(continueReceiveCheck) ==> EndsAtFive(statuses)
      ensures FlagTrace(flags, old(continueHeartbeat), |statuses|, false)
      ensures if old(continueReceiveCheck) then !continueHeartbeat && !continueReceiveCheck
              else continueHeartbeat == old(continueHeartbeat) && !continueReceiveCheck
    {
      statuses, arrivals, flags := [], [], [];
      if !continueReceiveCheck {
        return;
      }
      ghost var start, was, heartbeat := sock.script, table.View(), continueHeartbeat;
      ghost var s, now := start, was;
      LoopStart(start, was);
      var consecErrors := 0;
      while continueReceiveCheck
        invariant Valid()
        invariant sock.script == s && table.View() == now
        invariant LoopInv(start, was, s, now, consecErrors, statuses, arrivals)
        invariant FlagsInv(consecErrors, heartbeat, flags, |statuses|, continueHeartbeat, continueReceiveCheck)
        decreases Size(s), MAX_CONSECUTIVE_ERRORS - consecErrors
      {
        var status;
        ghost var arrival;
        status, arrival := RecvMsg();
        ghost var errors := consecErrors;
        if status != Success {
          consecErrors := consecErrors + 1;
        } else {
          consecErrors := 0;
        }
        LoopStep(start, was, s, now, errors, statuses, arrivals,
                 status, arrival, sock.script, table.View(), consecErrors);
        s, now := sock.script, table.View();
        statuses, arrivals := statuses + [status], arrivals + arrival;
        label Received:
        if consecErrors == MAX_CONSECUTIVE_ERRORS {
          continueHeartbeat := false;
          continueReceiveCheck := false;
          table.Untouched@Received();
        }
        FlagsStep(errors, heartbeat, flags, |statuses| - 1, consecErrors);
        flags := flags + [(continueHeartbeat, continueReceiveCheck)];
      }
      LoopEnd(start, was, s, now, statuses, arrivals);
      StopRule(start);
    }
  }

  /** After n calls: the flags as they were at the start after each but, once the loop is over, the
      last, and both cleared after that one. */
  ghost predicate FlagTrace(flags: seq<(bool, bool)>, heartbeat: bool, n: nat, running: bool) {
    && |flags| == n
    && forall k | 0 <= k < n :: flags[k] == if running || k < n - 1 then (heartbeat, true) else (false, false)
  }

  /** Both flags depend on the error count alone. */
  ghost predicate FlagsInv(errors: nat, heartbeat: bool, flags: seq<(bool, bool)>, n: nat, hb: bool, rc: bool) {
    && (rc <==> errors < MAX_CONSECUTIVE_ERRORS)
    && (hb <==> rc && heartbeat)
    && FlagTrace(flags, heartbeat, n, rc)
  }

  lemma FlagsStep(errors: nat, heartbeat: bool, flags: seq<(bool, bool)>, n: nat, errors': nat)
    requires errors < MAX_CONSECUTIVE_ERRORS && FlagsInv(errors, heartbeat, flags, n, heartbeat, true)
    ensures var rc := errors' < MAX_CONSECUTIVE_ERRORS;
            FlagsInv(errors', heartbeat, flags + [(rc && heartbeat, rc)], n + 1, rc && heartbeat, rc)
  {
  }

  lemma OneArrival(t: Table.PipeTable, e: Event)
    requires e.Arrival?
    ensures ArrivalsOnly([e]) && Arrivals([e]) == [e.buffer[..e.size]]
    ensures IngestAll(t, [e]) == Table.Arrive(t, e.buffer, e.size).tbl
  {
    ArrivalsCons([e]);
    assert [e][1..] == [];
  }

  /** The table has changed by these arrivals and nothing else. */
  ghost predicate Amounts(was: Table.PipeTable, now: Table.PipeTable, arrivals: seq<Event>) {
    ArrivalsOnly(arrivals) && now == IngestAll(was, arrivals)
  }

  lemma AmountsMore(was: Table.PipeTable, now: Table.PipeTable, now': Table.PipeTable, a: seq<Event>, b: seq<Event>)
    requires Amounts(was, now, a) && Amounts(now, now', b)
    ensures Amounts(was, now', a + b) && Arrivals(a + b) == Arrivals(a) + Arrivals(b)
  {
    IngestAllAppend(was, a, b);
    ArrivalsAppend(a, b);
  }

  /** The receive loop has made the calls `statuses`, which amounted to `arrivals`, and stands at
      stream s and table `now`. */
  ghost predicate LoopInv(start: Script, was: Table.PipeTable, s: Script, now: Table.PipeTable, errors: nat,
                          statuses: seq<Status>, arrivals: seq<Event>)
  {
    && errors == ErrorSuffix(statuses) <= MAX_CONSECUTIVE_ERRORS
    && Amounts(was, now, arrivals)
    && SoFar(start, s, errors, statuses, Arrivals(arrivals))
  }

  lemma LoopStart(start: Script, was: Table.PipeTable)
    ensures LoopInv(start, was, start, was, 0, [], [])
  {
    SoFarStart(start);
  }

  lemma LoopStep(start: Script, was: Table.PipeTable, s: Script, now: Table.PipeTable, errors: nat,
                 statuses: seq<Status>, arrivals: seq<Event>,
                 status: Status, arrival: seq<Event>, s': Script, now': Table.PipeTable, errors': nat)
    requires LoopInv(start, was, s, now, errors, statuses, arrivals) && errors < MAX_CONSECUTIVE_ERRORS
    requires status == Parse(s).status && s' == Parse(s).rest
    requires Amounts(now, now', arrival) && Arrivals(arrival) == AppOf(Parse(s))
    requires errors' == if status == Success then 0 else errors + 1
    ensures LoopInv(start, was, s', now', errors', statuses + [status], arrivals + arrival)
    ensures Size(s') < Size(s) || (Size(s') == Size(s) && errors < errors' <= MAX_CONSECUTIVE_ERRORS)
  {
    ParseProgress(s);
    ErrorSuffixSnoc(statuses, status);
    AmountsMore(was, now, now', arrivals, arrival);
    SoFarNext(start, s, errors, statuses, Arrivals(arrivals));
  }

  lemma LoopEnd(start: Script, was: Table.PipeTable, s: Script, now: Table.PipeTable,
                statuses: seq<Status>, arrivals: seq<Event>)
    requires LoopInv(start, was, s, now, MAX_CONSECUTIVE_ERRORS, statuses, arrivals)
    ensures Receive(start, 0) == LoopResult(statuses, Arrivals(arrivals), s)
  {
    EmptyBoth(statuses);
    EmptyBoth(Arrivals(arrivals));
  }

  lemma {:induction false} IngestAllAppend(t: Table.PipeTable, a: seq<Event>, b: seq<Event>)
    requires ArrivalsOnly(a) && ArrivalsOnly(b)
    ensures IngestAll(t, a + b) == IngestAll(IngestAll(t, a), b)
    decreases |a|
  {
    if a == [] {
      assert a + b == b;
    } else {
      assert (a + b)[1..] == a[1..] + b;
      IngestAllAppend(Table.Arrive(t, a[0].buffer, a[0].size).tbl, a[1..], b);
    }
  }

  lemma {:induction false} ArrivalsAppend(a: seq<Event>, b: seq<Event>)
    ensures Arrivals(a + b) == Arrivals(a) + Arrivals(b)
    decreases |a|
  {
    if a == [] {
      EmptyBoth(b);
    } else {
      assert (a + b)[1..] == a[1..] + b;
      ArrivalsCons(a);
      ArrivalsCons(a + b);
      ArrivalsAppend(a[1..], b);
      Regroup(Arrivals([a[0]]), Arrivals(a[1..]), Arrivals(b));
    }
  }
}
