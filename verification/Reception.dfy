/**
 The receive loop: recv_msg again and again until five calls in a row have failed.
 */
module Reception {
  import opened Defs
  import opened Stream
  import opened Framing

  /** The statuses of the calls made, the application payloads they completed, and the input left. */
  datatype LoopResult = LoopResult(statuses: seq<Status>, apps: seq<seq<uint8>>, rest: Script)

  /** SBN_Client_ReceiveMinder, entered with `errors` consecutive errors already counted. */
  function Receive(s: Script, errors: nat): LoopResult
    requires errors <= MAX_CONSECUTIVE_ERRORS
    decreases Size(s), MAX_CONSECUTIVE_ERRORS - errors
  {
    if errors == MAX_CONSECUTIVE_ERRORS then LoopResult([], [], s)
    else
      ParseProgress(s);
      var p := Parse(s);
      var r := Receive(p.rest, if p.status == Success then 0 else errors + 1);
      LoopResult([p.status] + r.statuses, AppOf(p) + r.apps, r.rest)
  }

  function AppOf(p: Parsed): seq<seq<uint8>> {
    if p.app.Some? then [p.app.value] else []
  }

  /** After these calls and payloads the loop stands at s with this error count. */
  ghost predicate SoFar(start: Script, s: Script, errors: nat, statuses: seq<Status>, apps: seq<seq<uint8>>)
    requires errors <= MAX_CONSECUTIVE_ERRORS
  {
    var r := Receive(s, errors);
    Receive(start, 0) == LoopResult(statuses + r.statuses, apps + r.apps, r.rest)
  }

  lemma SoFarStart(s: Script)
    ensures SoFar(s, s, 0, [], [])
  {
    EmptyBoth(Receive(s, 0).statuses);
    EmptyBoth(Receive(s, 0).apps);
  }

  lemma SoFarNext(start: Script, s: Script, errors: nat, statuses: seq<Status>, apps: seq<seq<uint8>>)
    requires errors < MAX_CONSECUTIVE_ERRORS && SoFar(start, s, errors, statuses, apps)
    ensures var p := Parse(s);
            SoFar(start, p.rest, if p.status == Success then 0 else errors + 1, statuses + [p.status], apps + AppOf(p))
  {
    ParseProgress(s);
    var p := Parse(s);
    var r := Receive(p.rest, if p.status == Success then 0 else errors + 1);
    Regroup(statuses, [p.status], r.statuses);
    Regroup(apps, AppOf(p), r.apps);
  }

  // ---- when it stops ----

  /** How many of the last calls failed in a row. */
  function ErrorSuffix(statuses: seq<Status>): nat {
    if statuses == [] || statuses[|statuses| - 1] == Success then 0
    else 1 + ErrorSuffix(statuses[..|statuses| - 1])
  }

  /** The suffix holds no success and the call before it, if any, was one. */
  lemma {:induction false} ErrorSuffixMeaning(statuses: seq<Status>)
    ensures var n := ErrorSuffix(statuses);
            && n <= |statuses|
            && (forall k | |statuses| - n <= k < |statuses| :: statuses[k] != Success)
            && (n < |statuses| ==> statuses[|statuses| - n - 1] == Success)
    decreases |statuses|
  {
    if statuses != [] && statuses[|statuses| - 1] != Success {
      ErrorSuffixMeaning(statuses[..|statuses| - 1]);
    }
  }

  lemma ErrorSuffixSnoc(statuses: seq<Status>, x: Status)
    ensures ErrorSuffix(statuses + [x]) == if x == Success then 0 else ErrorSuffix(statuses) + 1
  {
    assert (statuses + [x])[..|statuses|] == statuses;
  }

  /** After the calls `before`, the calls `now` are the first to complete five failures in a row. */
  ghost predicate FirstStop(before: seq<Status>, now: seq<Status>) {
    && ErrorSuffix(before + now) == 5
    && forall n | 0 <= n < |now| :: ErrorSuffix(before + now[..n]) < 5
  }

  lemma FirstStopCons(before: seq<Status>, x: Status, rest: seq<Status>)
    requires ErrorSuffix(before) < MAX_CONSECUTIVE_ERRORS && FirstStop(before + [x], rest)
    ensures FirstStop(before, [x] + rest)
  {
    Regroup(before, [x], rest);
    forall n | 0 <= n < |[x] + rest|
      ensures ErrorSuffix(before + ([x] + rest)[..n]) < MAX_CONSECUTIVE_ERRORS
    {
      if n == 0 {
        EmptyBoth(before);
      } else {
        assert ([x] + rest)[..n] == [x] + rest[..n - 1];
        Regroup(before, [x], rest[..n - 1]);
      }
    }
  }

  lemma {:induction false} StopRuleFrom(s: Script, errors: nat, before: seq<Status>)
    requires errors <= MAX_CONSECUTIVE_ERRORS && ErrorSuffix(before) == errors
    ensures FirstStop(before, Receive(s, errors).statuses)
    decreases Size(s), MAX_CONSECUTIVE_ERRORS - errors
  {
    if errors == MAX_CONSECUTIVE_ERRORS {
      assert before + [] == before;
    } else {
      ParseProgress(s);
      var p := Parse(s);
      var errors' := if p.status == Success then 0 else errors + 1;
      ErrorSuffixSnoc(before, p.status);
      StopRuleFrom(p.rest, errors', before + [p.status]);
      FirstStopCons(before, p.status, Receive(p.rest, errors').statuses);
    }
  }

  /** The last five calls have all failed. */
  ghost predicate FiveFailed(statuses: seq<Status>) {
    |statuses| >= 5 && forall k | |statuses| - 5 <= k < |statuses| :: statuses[k] != Success
  }

  lemma FiveFailedSuffix(statuses: seq<Status>)
    ensures FiveFailed(statuses) <==> ErrorSuffix(statuses) >= 5
  {
    ErrorSuffixMeaning(statuses);
    var n := ErrorSuffix(statuses);
    assert n < |statuses| ==> statuses[|statuses| - n - 1] == Success;
  }

  /** ... and never before that the last five. */
  ghost predicate EndsAtFive(statuses: seq<Status>) {
    FiveFailed(statuses) && forall n | 0 <= n < |statuses| :: !FiveFailed(statuses[..n])
  }

  /** For every finite stream with any failures and closes in it the loop ends, and it ends after
      the first call that completes five failures in a row, not before. */
  lemma StopRule(s: Script)
    ensures EndsAtFive(Receive(s, 0).statuses)
  {
    var statuses := Receive(s, 0).statuses;
    StopRuleFrom(s, 0, []);
    EmptyBoth(statuses);
    FiveFailedSuffix(statuses);
    forall n | 0 <= n < |statuses|
      ensures !FiveFailed(statuses[..n])
    {
      EmptyBoth(statuses[..n]);
      FiveFailedSuffix(statuses[..n]);
    }
  }

  // ---- what it delivers ----

  /** The whole loop cannot tell two chunkings of the same stream apart. */
  lemma {:induction false} ReceiveChunking(a: Script, b: Script, errors: nat)
    requires errors <= MAX_CONSECUTIVE_ERRORS && SameStream(a, b)
    ensures var x, y := Receive(a, errors), Receive(b, errors);
            x.statuses == y.statuses && x.apps == y.apps && SameStream(x.rest, y.rest)
    decreases Size(a), MAX_CONSECUTIVE_ERRORS - errors
  {
    if errors < MAX_CONSECUTIVE_ERRORS {
      ParseProgress(a);
      ParseChunking(a, b);
      ReceiveChunking(Parse(a).rest, Parse(b).rest, if Parse(a).status == Success then 0 else errors + 1);
    }
  }

  function PackFrames(fs: seq<Frame>): seq<uint8>
    requires forall f | f in fs :: WellFormed(f)
  {
    if fs == [] then [] else PackFrame(fs[0]) + PackFrames(fs[1..])
  }

  function AppPayloads(fs: seq<Frame>): seq<seq<uint8>> {
    if fs == [] then []
    else FrameApp(fs[0]) + AppPayloads(fs[1..])
  }

  function FrameApp(f: Frame): seq<seq<uint8>> {
    if f.kind == APP_MSG then [f.payload] else []
  }

  function Repeat(x: Status, n: nat): (r: seq<Status>)
    ensures |r| == n
  {
    seq(n, _ => x)
  }

  lemma ReceiveFrame(s: Script, errors: nat, f: Frame, more: seq<uint8>) returns (s': Script)
    requires errors < MAX_CONSECUTIVE_ERRORS && WellFormed(f)
    requires Lead(s) == PackFrame(f) + more
    ensures Lead(s') == more && Stop(s') == Stop(s)
    ensures var r := Receive(s', 0);
            Receive(s, errors) == LoopResult([Success] + r.statuses, FrameApp(f) + r.apps, r.rest)
  {
    ParseFrame(s, f, more);
    s' := Parse(s).rest;
  }

  /** Well-formed frames at the head of a stream: each is received successfully and delivered in
      order, and the loop goes on behind them with its error count cleared. */
  lemma {:induction false} ReceiveFrames(s: Script, errors: nat, fs: seq<Frame>, more: seq<uint8>) returns (s': Script)
    requires errors < MAX_CONSECUTIVE_ERRORS
    requires forall f | f in fs :: WellFormed(f)
    requires Lead(s) == PackFrames(fs) + more
    ensures Lead(s') == more && Stop(s') == Stop(s)
    ensures var r, r' := Receive(s, errors), Receive(s', if fs == [] then errors else 0);
            && r.statuses == Repeat(Success, |fs|) + r'.statuses
            && r.apps == AppPayloads(fs) + r'.apps
            && r.rest == r'.rest
    decreases |fs|
  {
    if fs == [] {
      assert [] + more == more;
      s' := s;
      assert Repeat(Success, 0) + Receive(s, errors).statuses == Receive(s, errors).statuses;
    } else {
      var tail := fs[1..];
      Regroup(PackFrame(fs[0]), PackFrames(tail), more);
      var s1 := ReceiveFrame(s, errors, fs[0], PackFrames(tail) + more);
      s' := ReceiveFrames(s1, 0, tail, more);
      var r' := Receive(s', 0);
      Regroup([Success], Repeat(Success, |tail|), r'.statuses);
      assert [Success] + Repeat(Success, |tail|) == Repeat(Success, |fs|);
      Regroup(FrameApp(fs[0]), AppPayloads(tail), r'.apps);
    }
  }

  lemma {:induction false} AllClosed(errors: nat)
    requires errors <= MAX_CONSECUTIVE_ERRORS
    ensures Receive(End, errors) == LoopResult(Repeat(PipeClosed, MAX_CONSECUTIVE_ERRORS - errors), [], End)
    decreases MAX_CONSECUTIVE_ERRORS - errors
  {
    ParseMeaning(End);
    if errors < MAX_CONSECUTIVE_ERRORS {
      AllClosed(errors + 1);
      assert [PipeClosed] + Repeat(PipeClosed, MAX_CONSECUTIVE_ERRORS - (errors + 1))
          == Repeat(PipeClosed, MAX_CONSECUTIVE_ERRORS - errors);
    }
  }

  /** The meaning of a stream of well-formed frames that then ends, under any chunking: the loop
      delivers exactly the application payloads, in order; every frame is a success; then five reads
      find the connection closed and it stops with nothing left. */
  lemma StreamMeaning(s: Script, fs: seq<Frame>)
    requires forall f | f in fs :: WellFormed(f)
    requires Lead(s) == PackFrames(fs) && Stop(s) == End
    ensures Receive(s, 0)
            == LoopResult(Repeat(Success, |fs|) + Repeat(PipeClosed, 5), AppPayloads(fs), End)
  {
    EmptyBoth(PackFrames(fs));
    var s' := ReceiveFrames(s, 0, fs, []);
    NothingLeft(s');
    AllClosed(0);
    EmptyBoth(AppPayloads(fs));
  }

  lemma NothingLeft(s: Script)
    requires Lead(s) == [] && Stop(s) == End
    ensures s == End
  {
  }

  lemma CutBehind<T>(a: seq<T>, b: seq<T>, n: nat)
    requires |a| <= n <= |a| + |b|
    ensures (a + b)[..n] == a + b[..n - |a|]
  {
  }

  /** A call that finds only the front of a frame delivers nothing and runs into what ended it. */
  lemma ParseCutFrame(s: Script, f: Frame, n: nat)
    requires WellFormed(f) && n < |PackFrame(f)| && Lead(s) == PackFrame(f)[..n]
    ensures Parse(s).app == None && Parse(s).rest == AfterStop(s)
  {
    var hdr := Header(|f.payload|, f.kind, f.cpuId);
    HeaderRoundTrip(hdr, PackHeader(hdr));
    ParseMeaning(s);
    if n >= PACKED_HDR_SZ {
      CutBehind(PackHeader(hdr), f.payload, n);
      SplitBack(PackHeader(hdr), f.payload[..n - PACKED_HDR_SZ]);
    }
  }

  /** A stream cut off anywhere inside a frame: the frames before it are delivered, no part of the cut
      one ever is, and the loop goes on behind the failure or close that cut it. */
  lemma StreamCut(s: Script, fs: seq<Frame>, f: Frame, n: nat) returns (errors: nat)
    requires forall g | g in fs :: WellFormed(g)
    requires WellFormed(f) && n < |PackFrame(f)|
    requires Lead(s) == PackFrames(fs) + PackFrame(f)[..n]
    ensures errors <= 1
    ensures Receive(s, 0).apps == AppPayloads(fs) + Receive(AfterStop(s), errors).apps
    ensures Receive(s, 0).rest == Receive(AfterStop(s), errors).rest
    ensures Stop(s) == End ==> Receive(s, 0).apps == AppPayloads(fs) && Receive(s, 0).rest == End
  {
    var s' := ReceiveFrames(s, 0, fs, PackFrame(f)[..n]);
    ParseCutFrame(s', f, n);
    errors := if Parse(s').status == Success then 0 else 1;
    EmptyBoth(Receive(AfterStop(s), errors).apps);
    AllClosed(errors);
    EmptyBoth(AppPayloads(fs));
  }
}
