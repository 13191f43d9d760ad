/**
 The FIX session layer: logon and logout, inbound sequence checking with gap detection, and outbound numbering.
 Sequence numbers are 32-bit; clocks, SendingTime text and the heartbeat timer are left to the caller.
 */
module FixSession {
  import opened Basics
  import opened FixText
  import opened FixMessage
  import opened FixAdmin

  datatype SessionState = Disconnected | LogonSent | Active | LogoutSent

  // ---------------------------------------------------------------- the inbound numbers as a tiling

  // What became of a stretch of inbound numbers.
  datatype Segment = Accepted(first: nat) | Requested(first: nat, last: nat) | Filled(first: nat, last: nat)

  function End(s: Segment): nat {
    if s.Accepted? then s.first + 1 else s.last + 1
  }

  predicate Covers(s: Segment, n: nat) {
    s.first <= n < End(s)
  }

  // The segments follow each other without gap or overlap from lo up to hi.
  predicate Tiles(log: seq<Segment>, lo: nat, hi: nat) {
    if log == [] then lo == hi
    else
      var s := log[|log| - 1];
      s.first < End(s) && End(s) == hi && Tiles(log[..|log| - 1], lo, s.first)
  }

  function CoverCount(log: seq<Segment>, n: nat): nat {
    if log == [] then 0 else CoverCount(log[..|log| - 1], n) + if Covers(log[|log| - 1], n) then 1 else 0
  }

  /** Every number from lo to hi - 1 is accepted, requested or gap-filled exactly once; no other number is. */
  lemma {:induction false} EachNumberOnce(log: seq<Segment>, lo: nat, hi: nat, n: nat)
    requires Tiles(log, lo, hi)
    ensures lo <= hi && CoverCount(log, n) == if lo <= n < hi then 1 else 0
  {
    if log != [] { EachNumberOnce(log[..|log| - 1], lo, log[|log| - 1].first, n); }
  }

  lemma TilesAppend(log: seq<Segment>, lo: nat, hi: nat, s: Segment)
    requires Tiles(log, lo, hi) && s.first == hi < End(s)
    ensures Tiles(log + [s], lo, End(s))
  {
    assert (log + [s])[..|log|] == log;
  }

  // The ranges asked for in a list of messages, and the ranges marked as requested in a log.
  function RequestedByMessages(sent: seq<Out>): seq<(nat, nat)> {
    if sent == [] then []
    else
      var o := sent[|sent| - 1];
      RequestedByMessages(sent[..|sent| - 1]) +
      if o.Numbered? && o.content.ResendRequest? && o.content.detected then [(o.content.begin, o.content.end)] else []
  }

  function RequestedByLog(log: seq<Segment>): seq<(nat, nat)> {
    if log == [] then []
    else
      var s := log[|log| - 1];
      RequestedByLog(log[..|log| - 1]) + if s.Requested? then [(s.first, s.last)] else []
  }

  // The numbers accepted, in order of acceptance.
  function AcceptedNumbers(log: seq<Segment>): seq<nat> {
    if log == [] then []
    else
      var s := log[|log| - 1];
      AcceptedNumbers(log[..|log| - 1]) + if s.Accepted? then [s.first] else []
  }

  predicate Increasing(ns: seq<nat>) {
    forall i, j :: 0 <= i < j < |ns| ==> ns[i] < ns[j]
  }

  lemma {:induction false} AcceptedIncreasing(log: seq<Segment>, lo: nat, hi: nat)
    requires Tiles(log, lo, hi)
    ensures Increasing(AcceptedNumbers(log))
    ensures forall i :: 0 <= i < |AcceptedNumbers(log)| ==> AcceptedNumbers(log)[i] < hi
  {
    if log != [] { AcceptedIncreasing(log[..|log| - 1], lo, log[|log| - 1].first); }
  }

  lemma {:induction false} AcceptedIsLogged(log: seq<Segment>, n: nat)
    ensures n in AcceptedNumbers(log) <==> Accepted(n) in log
  {
    if log != [] {
      AcceptedIsLogged(log[..|log| - 1], n);
      assert log == log[..|log| - 1] + [log[|log| - 1]];
    }
  }

  lemma {:induction false} CoveredAtLeastOnce(log: seq<Segment>, i: nat, n: nat)
    requires i < |log| && Covers(log[i], n)
    ensures CoverCount(log, n) >= 1
  {
    if i < |log| - 1 { CoveredAtLeastOnce(log[..|log| - 1], i, n); }
  }

  lemma {:induction false} CoveredTwice(log: seq<Segment>, i: nat, j: nat, n: nat)
    requires i < j < |log| && Covers(log[i], n) && Covers(log[j], n)
    ensures CoverCount(log, n) >= 2
  {
    if j < |log| - 1 {
      CoveredTwice(log[..|log| - 1], i, j, n);
    } else {
      CoveredAtLeastOnce(log[..|log| - 1], i, n);
    }
  }

  /** A number that was asked to be resent is never accepted afterwards: the resent copy counts as a duplicate. */
  lemma RequestedIsNeverAccepted(log: seq<Segment>, lo: nat, hi: nat, i: nat, n: nat)
    requires Tiles(log, lo, hi) && i < |log| && !log[i].Accepted? && Covers(log[i], n)
    ensures n !in AcceptedNumbers(log)
  {
    AcceptedIsLogged(log, n);
    if Accepted(n) in log {
      var j :| 0 <= j < |log| && log[j] == Accepted(n);
      EachNumberOnce(log, lo, hi, n);
      if i < j { CoveredTwice(log, i, j, n); } else { CoveredTwice(log, j, i, n); }
    }
  }

  // ---------------------------------------------------------------- outbound numbering

  // The numbered messages of an epoch carry 1, 2, 3, ... (modulo 2^32) and `next` comes after them.
  predicate Consecutive(outs: seq<Out>, next: nat) {
    if outs == [] then next == 1
    else
      var o := outs[|outs| - 1];
      if o.Numbered? then next == (o.number + 1) % U32 && Consecutive(outs[..|outs| - 1], o.number)
      else Consecutive(outs[..|outs| - 1], next)
  }

  function NumberedCount(outs: seq<Out>): nat {
    if outs == [] then 0 else NumberedCount(outs[..|outs| - 1]) + if outs[|outs| - 1].Numbered? then 1 else 0
  }

  // The next number is the count of numbered messages plus one: replies to resend requests consume none.
  lemma {:induction false} NumbersCount(outs: seq<Out>, next: nat)
    requires Consecutive(outs, next)
    ensures next == (NumberedCount(outs) + 1) % U32
  {
    if outs != [] {
      var o := outs[|outs| - 1];
      if o.Numbered? { NumbersCount(outs[..|outs| - 1], o.number); } else { NumbersCount(outs[..|outs| - 1], next); }
    }
  }

  // ---------------------------------------------------------------- what one message does

  predicate Accepts(inbound: nat, m: Fields) {
    KindOf(m) != KSequenceReset && SeqNum(m) >= inbound
  }

  predicate IsGapFill(m: Fields) {
    GetTag(m, GAP_FILL_FLAG) == Some(YES)
  }

  function NextInbound(inbound: nat, m: Fields): nat {
    if KindOf(m) == KSequenceReset then
      var n := TagInt(m, NEW_SEQ_NO);
      if n.None? then inbound
      else if IsGapFill(m) then (if ToU32(n.value) > inbound then ToU32(n.value) else inbound)
      else ToU32(n.value)
    else if SeqNum(m) < inbound then inbound
    else (SeqNum(m) + 1) % U32
  }

  function NextState(state: SessionState, m: Fields): SessionState {
    match KindOf(m)
    case KLogon => if state == LogonSent || state == Disconnected then Active else state
    case KLogout => Disconnected
    case _ => state
  }

  // A heartbeat that answers the pending test request clears it.
  function NextPending(pending: Bytes, m: Fields): Bytes {
    if KindOf(m) == KHeartbeat && GetTag(m, TEST_REQ_ID) == Some(pending) then [] else pending
  }

  // A logon with a positive HeartBtInt sets the interval, cut to 32 bits.
  function NextInterval(interval: int, m: Fields): int {
    var hb := TagInt(m, HEART_BT_INT);
    if KindOf(m) == KLogon && hb.Some? && hb.value > 0 then ToInt(hb.value) else interval
  }

  // The resend request that a jump in the numbers triggers.
  function GapRequest(inbound: nat, m: Fields): seq<Content> {
    if SeqNum(m) > inbound then [ResendRequest(inbound, SeqNum(m) - 1, true)] else []
  }

  function Reply(state: SessionState, interval: int, m: Fields): seq<Content> {
    match KindOf(m)
    case KLogon => if state == Disconnected then [Logon(false, NextInterval(interval, m))] else []
    case KLogout => if state == LogoutSent then [] else [Logout(GetTag(m, TEXT))]
    case KTestRequest => [Heartbeat(GetTag(m, TEST_REQ_ID))]
    case _ => []
  }

  function Number(cs: seq<Content>, from: nat): seq<Out> {
    if cs == [] then [] else [Numbered(from, cs[0])] + Number(cs[1..], (from + 1) % U32)
  }

  // The gap fill sent instead of a replay.  Without a positive EndSeqNo it runs up to the next outbound number.
  function Replay(m: Fields, outbound: nat): seq<Out> {
    var begin, end := TagInt(m, BEGIN_SEQ_NO), TagInt(m, END_SEQ_NO);
    if KindOf(m) != KResendRequest || begin.None? then []
    else [GapFillReply(begin.value, if end.Some? && end.value > 0 then ToU32(end.value + 1) else outbound)]
  }

  function Answers(inbound: nat, outbound: nat, state: SessionState, interval: int, m: Fields): seq<Out> {
    var gap := GapRequest(inbound, m);
    Number(gap + Reply(state, interval, m), outbound) + Replay(m, (outbound + |gap|) % U32)
  }

  // The one way to lose count: accepting the largest 32-bit number.
  predicate Wraps(inbound: nat, m: Fields) {
    Accepts(inbound, m) && SeqNum(m) == U32 - 1
  }

  // ---------------------------------------------------------------- the session object

  class Session {
    const sender: Bytes
    const target: Bytes
    var heartbeatInterval: int
    var state: SessionState
    var outbound: nat
    var inbound: nat
    var pendingTestReqId: Bytes
    var sent: seq<Out>          // what the send callback received
    var delivered: seq<Fields>  // what the application callback received

    ghost var base: nat         // the expected number when the current inbound epoch began
    ghost var log: seq<Segment> // what became of the numbers since
    ghost var sentMark: nat     // |sent| and |delivered| at that moment
    ghost var deliveredMark: nat
    ghost var outMark: nat      // |sent| when the current outbound epoch began

    ghost function DeliveredNumbers(): seq<nat>
      requires deliveredMark <= |delivered|
      reads this`delivered, this`deliveredMark
    {
      NumbersOf(delivered[deliveredMark..])
    }

    ghost predicate InboundOk()
      reads this`inbound, this`log, this`base, this`sent, this`sentMark, this`delivered, this`deliveredMark
    {
      && inbound < U32 && Tiles(log, base, inbound)
      && sentMark <= |sent| && RequestedByMessages(sent[sentMark..]) == RequestedByLog(log)
      && deliveredMark <= |delivered| && Increasing(DeliveredNumbers())
      && (forall n :: n in DeliveredNumbers() ==> n in AcceptedNumbers(log))
    }

    ghost predicate OutboundOk()
      reads this`outbound, this`sent, this`outMark
    {
      outbound < U32 && outMark <= |sent| && Consecutive(sent[outMark..], outbound)
    }

    ghost predicate Valid()
      reads this
    {
      InboundOk() && OutboundOk()
    }

    constructor (sender: Bytes, target: Bytes)
      ensures Valid() && state == Disconnected && inbound == outbound == 1 && base == 1 && log == []
      ensures sent == [] && delivered == [] && this.sender == sender && this.target == target
    {
      this.sender, this.target, heartbeatInterval, sent, delivered := sender, target, 30, [], [];
      new;
      Reset();
    }

    // Stamps the next outbound number.  A gap request enters the log of requested ranges separately.
    method SendLocked(content: Content)
      requires OutboundOk()
      modifies this`sent, this`outbound
      ensures OutboundOk() && outbound == (old(outbound) + 1) % U32
      ensures sent == old(sent) + [Numbered(old(outbound), content)]
      ensures old(InboundOk()) && !(content.ResendRequest? && content.detected) ==> InboundOk()
    {
      ghost var o := Numbered(outbound, content);
      TailAppend(sent, outMark, o);
      sent := sent + [Numbered(outbound, content)];
      outbound := (outbound + 1) % U32;
      if old(InboundOk()) { TailAppend(old(sent), sentMark, o); }
    }

    method SendLogon(reset: bool)
      requires OutboundOk()
      modifies this
      ensures OutboundOk() && (old(InboundOk()) || reset ==> InboundOk())
      ensures state == LogonSent && delivered == old(delivered)
      ensures pendingTestReqId == old(pendingTestReqId) && heartbeatInterval == old(heartbeatInterval)
      ensures sent == old(sent) + [Numbered(if reset then 1 else old(outbound), Logon(reset, heartbeatInterval))]
      ensures !reset ==> inbound == old(inbound) && base == old(base) && log == old(log) && outMark == old(outMark)
      ensures reset ==> inbound == 1 && outbound == 2 && log == []
      ensures !reset ==> outbound == (old(outbound) + 1) % U32
    {
      hide Tiles, RequestedByLog, AcceptedNumbers, RequestedByMessages, Increasing;
      if reset {
        outbound := 1;
        inbound := 1;
        StartEpoch();
        outMark := |sent|;
      }
      SendLocked(Logon(reset, heartbeatInterval));
      state := LogonSent;
    }

    method SendLogout(text: Option<Bytes>)
      requires OutboundOk()
      modifies this`sent, this`outbound, this`state
      ensures OutboundOk() && (old(InboundOk()) ==> InboundOk())
      ensures state == LogoutSent && sent == old(sent) + [Numbered(old(outbound), Logout(text))]
      ensures outbound == (old(outbound) + 1) % U32
    {
      SendLocked(Logout(text));
      state := LogoutSent;
    }

    // Heartbeats, test requests, application resend requests, sequence resets, rejects, application messages.
    method Send(content: Content)
      requires OutboundOk()
      requires !content.Logon? && !content.Logout? && !(content.ResendRequest? && content.detected)
      modifies this`sent, this`outbound, this`pendingTestReqId
      ensures OutboundOk() && (old(InboundOk()) ==> InboundOk())
      ensures sent == old(sent) + [Numbered(old(outbound), content)] && outbound == (old(outbound) + 1) % U32
      ensures pendingTestReqId == if content.TestRequest? then content.testId else old(pendingTestReqId)
    {
      if content.TestRequest? {
        pendingTestReqId := content.testId;
      }
      SendLocked(content);
    }

    method Reset()
      modifies this
      ensures Valid() && state == Disconnected && inbound == outbound == 1 && base == 1 && log == []
      ensures sent == old(sent) && delivered == old(delivered)
      ensures pendingTestReqId == [] && heartbeatInterval == old(heartbeatInterval)
    {
      hide Tiles, RequestedByLog, AcceptedNumbers, RequestedByMessages, Increasing, Consecutive, InboundOk;
      state, outbound, inbound, pendingTestReqId := Disconnected, 1, 1, [];
      StartEpoch();
      outMark := |sent|;
      NothingSent(sent);
    }

    method OnDisconnect()
      modifies this`state
      ensures (old(Valid()) ==> Valid()) && state == Disconnected
    {
      state := Disconnected;
    }

    // Notes what became of the next numbers; the caller then moves the expected number past them.
    ghost method Record(s: Segment)
      requires InboundOk() && s.first == inbound < End(s)
      modifies this`log
      ensures log == old(log) + [s] && Tiles(log, base, End(s))
      ensures RequestedByLog(log) == RequestedByLog(old(log)) + if s.Requested? then [(s.first, s.last)] else []
      ensures AcceptedNumbers(log) == AcceptedNumbers(old(log)) + if s.Accepted? then [s.first] else []
    {
      LogAppend(log, base, inbound, s);
      log := log + [s];
    }

    method HandleSequenceReset(m: Fields)
      requires inbound < U32 && KindOf(m) == KSequenceReset
      modifies this`inbound, this`log, this`base, this`sentMark, this`deliveredMark
      ensures inbound == NextInbound(old(inbound), m) < U32
      ensures old(InboundOk()) || (!IsGapFill(m) && TagInt(m, NEW_SEQ_NO).Some?) ==> InboundOk()
      ensures old(InboundOk()) && (IsGapFill(m) || TagInt(m, NEW_SEQ_NO).None?) ==>
        && base == old(base)
        && log == old(log) + (if inbound == old(inbound) then [] else [Filled(old(inbound), inbound - 1)])
      ensures !IsGapFill(m) && TagInt(m, NEW_SEQ_NO).Some? ==> base == inbound && log == []
    {
      hide TagInt, KindOf, IsGapFill, GetTag, ParseInt, Covers;
      hide Tiles, RequestedByLog, AcceptedNumbers, RequestedByMessages, Increasing;
      var newSeq := TagInt(m, NEW_SEQ_NO);
      if newSeq.None? {
        assert log + [] == log;
        return;
      }
      if IsGapFill(m) {
        if ToU32(newSeq.value) > inbound {
          if InboundOk() { Record(Filled(inbound, ToU32(newSeq.value) - 1)); }
          inbound := ToU32(newSeq.value);
        } else {
          assert log + [] == log;
        }
      } else {
        inbound := ToU32(newSeq.value);
        StartEpoch();
      }
    }

    // A new inbound epoch begins at the current expected number.
    ghost method StartEpoch()
      requires inbound < U32
      modifies this`log, this`base, this`sentMark, this`deliveredMark
      ensures InboundOk() && base == inbound && log == [] && sentMark == |sent| && deliveredMark == |delivered|
    {
      base, log, sentMark, deliveredMark := inbound, [], |sent|, |delivered|;
    }

    // The number is logged as accepted and above everything delivered.
    ghost predicate CanDeliver(n: nat)
      reads this`log, this`delivered, this`deliveredMark
    {
      && deliveredMark <= |delivered| && n in AcceptedNumbers(log)
      && forall x :: x in DeliveredNumbers() ==> x < n
    }

    // Requests the missing numbers, if any, and accepts `seq`.
    method AcceptNumber(seqNum: nat)
      requires OutboundOk() && inbound <= seqNum < U32
      modifies this`inbound, this`log, this`sent, this`outbound
      ensures OutboundOk() && inbound == (seqNum + 1) % U32
      ensures log == old(log) + GapSegment(old(inbound), seqNum) + [Accepted(seqNum)]
      ensures sent == old(sent) + (if seqNum > old(inbound)
                                   then [Numbered(old(outbound), ResendRequest(old(inbound), seqNum - 1, true))]
                                   else [])
      ensures outbound == (old(outbound) + if seqNum > old(inbound) then 1 else 0) % U32
      ensures old(InboundOk()) ==> CanDeliver(seqNum) && (InboundOk() <==> seqNum != U32 - 1)
    {
      hide Consecutive, Increasing, Tiles, RequestedByLog, AcceptedNumbers, RequestedByMessages;
      ghost var log' := log + GapSegment(inbound, seqNum) + [Accepted(seqNum)];
      if InboundOk() {
        AcceptedIncreasing(log, base, inbound);
        AcceptLog(log, base, inbound, seqNum);
        if seqNum > inbound { RequestAppend(sent, sentMark, outbound, inbound, seqNum - 1); }
      }
      if seqNum > inbound {
        SendLocked(ResendRequest(inbound, seqNum - 1, true));
      }
      log := log';
      inbound := (seqNum + 1) % U32;
    }

    // Hands an accepted application message to the callback.
    method Deliver(m: Fields)
      modifies this`delivered
      ensures delivered == old(delivered) + [m]
      ensures old(InboundOk() && CanDeliver(SeqNum(m))) ==> InboundOk()
    {
      hide Increasing, SeqNum;
      delivered := delivered + [m];
      if old(InboundOk() && CanDeliver(SeqNum(m))) {
        ghost var before := old(DeliveredNumbers());
        DeliveredAppend(old(delivered), deliveredMark, m);
        assert DeliveredNumbers() == before + [SeqNum(m)];
        IncreasingAppend(before, SeqNum(m));
        assert forall n :: n in before + [SeqNum(m)] <==> n in before || n == SeqNum(m);
      }
    }

    // The reset flag changes nothing: the expected number is already the one after the logon.
    method HandleLogon(m: Fields)
      requires OutboundOk() && inbound == (SeqNum(m) + 1) % U32 && KindOf(m) == KLogon
      modifies this`sent, this`outbound, this`state, this`inbound, this`heartbeatInterval
      ensures OutboundOk() && (old(InboundOk()) ==> InboundOk()) && inbound == old(inbound)
      ensures state == NextState(old(state), m)
      ensures sent == old(sent) + Number(Reply(old(state), old(heartbeatInterval), m), old(outbound))
      ensures heartbeatInterval == NextInterval(old(heartbeatInterval), m)
      ensures outbound == (old(outbound) + |Reply(old(state), old(heartbeatInterval), m)|) % U32
    {
      hide InboundOk, KindOf, TagInt, GetTag, SeqNum, ToInt, Consecutive;
      var hb := TagInt(m, HEART_BT_INT);
      if hb.Some? && hb.value > 0 { heartbeatInterval := ToInt(hb.value); }
      if state == LogonSent {
        state := Active;
      } else if state == Disconnected {
        SendLocked(Logon(false, heartbeatInterval));
        state := Active;
      }
      if GetTag(m, RESET_SEQ_NUM_FLAG) == Some(YES) {
        inbound := (SeqNum(m) + 1) % U32;
      }
      assert forall x: seq<Out> :: x + [] == x;
    }

    // The session-level answer to an accepted message.
    method Dispatch(m: Fields)
      requires OutboundOk() && inbound == (SeqNum(m) + 1) % U32
      modifies this`sent, this`outbound, this`delivered, this`state, this`inbound, this`heartbeatInterval,
               this`pendingTestReqId
      ensures OutboundOk() && inbound == old(inbound)
      ensures old(InboundOk() && CanDeliver(SeqNum(m))) ==> InboundOk()
      ensures state == NextState(old(state), m)
      ensures delivered == if KindOf(m) == KApplication then old(delivered) + [m] else old(delivered)
      ensures sent == old(sent) + Number(Reply(old(state), old(heartbeatInterval), m), old(outbound)) +
                      Replay(m, old(outbound))
      ensures pendingTestReqId == NextPending(old(pendingTestReqId), m)
      ensures heartbeatInterval == NextInterval(old(heartbeatInterval), m)
      ensures outbound == (old(outbound) + |Reply(old(state), old(heartbeatInterval), m)|) % U32
    {
      hide InboundOk, CanDeliver, KindOf, TagInt, GetTag, SeqNum, Consecutive;
      assert forall x: seq<Out> :: x + [] == x;
      match KindOf(m) {
        case KLogon =>
          HandleLogon(m);
        case KLogout =>
          if state != LogoutSent {
            SendLocked(Logout(GetTag(m, TEXT)));
          }
          state := Disconnected;
        case KHeartbeat =>
          if GetTag(m, TEST_REQ_ID) == Some(pendingTestReqId) { pendingTestReqId := []; }
        case KTestRequest =>
          SendLocked(Heartbeat(GetTag(m, TEST_REQ_ID)));
        case KResendRequest =>
          SendReplay(m);
        case KApplication =>
          Deliver(m);
        case _ =>
      }
    }

    method SendReplay(m: Fields)
      requires OutboundOk() && KindOf(m) == KResendRequest
      modifies this`sent
      ensures OutboundOk() && (old(InboundOk()) ==> InboundOk()) && sent == old(sent) + Replay(m, outbound)
    {
      hide TagInt, KindOf, Tiles, RequestedByLog, AcceptedNumbers, Increasing, RequestedByMessages, Consecutive;
      var begin, end := TagInt(m, BEGIN_SEQ_NO), TagInt(m, END_SEQ_NO);
      if begin.None? { return; }
      var endSeq := if end.Some? && end.value > 0 then ToU32(end.value + 1) else outbound;
      ghost var o := GapFillReply(begin.value, endSeq);
      ReplyAppend(sent, outMark, o, outbound);
      if sentMark <= |sent| { ReplyAppend(sent, sentMark, o, outbound); }
      sent := sent + [GapFillReply(begin.value, endSeq)];
    }

    method OnAccepted(m: Fields)
      requires OutboundOk() && Accepts(inbound, m)
      modifies this
      ensures OutboundOk() && inbound == (SeqNum(m) + 1) % U32
      ensures old(InboundOk()) ==> (InboundOk() <==> SeqNum(m) != U32 - 1)
      ensures state == NextState(old(state), m) && base == old(base)
      ensures log == old(log) + GapSegment(old(inbound), SeqNum(m)) + [Accepted(SeqNum(m))]
      ensures sent == old(sent) + Answers(old(inbound), old(outbound), old(state), old(heartbeatInterval), m)
      ensures delivered == (if KindOf(m) == KApplication then old(delivered) + [m] else old(delivered))
      ensures pendingTestReqId == NextPending(old(pendingTestReqId), m)
      ensures heartbeatInterval == NextInterval(old(heartbeatInterval), m)
      ensures outbound ==
        (old(outbound) + |GapRequest(old(inbound), m)| + |Reply(old(state), old(heartbeatInterval), m)|) % U32
    {
      hide NextPending, NextInterval, KindOf, TagInt, GetTag, Reply, Replay, NextState, SeqNum, Number;
      hide Tiles, RequestedByLog, AcceptedNumbers, RequestedByMessages, Consecutive, Increasing, CanDeliver;
      ghost var seqNum := SeqNum(m);
      NumberAppend(GapRequest(inbound, m), Reply(state, heartbeatInterval, m), outbound);
      AcceptNumber(SeqNum(m));
      ghost var lost := !Tiles(log, base, inbound);
      if old(InboundOk()) && seqNum == U32 - 1 { AcceptLog(old(log), base, old(inbound), seqNum); }
      Dispatch(m);
      assert lost == !Tiles(log, base, inbound);
    }

    /**
     Processes one inbound message.  What it does does not depend on the bookkeeping; the bookkeeping survives
     unless the largest 32-bit number is accepted.
     */
    method OnMessage(m: Fields)
      requires OutboundOk() && inbound < U32
      modifies this
      ensures OutboundOk() && inbound < U32
      ensures old(Valid()) ==> (Valid() <==> !(ForUs(m, sender, target) && Wraps(old(inbound), m)))
      ensures !ForUs(m, sender, target) ==> inbound == old(inbound)
      ensures ForUs(m, sender, target) ==> inbound == NextInbound(old(inbound), m)
      ensures if ForUs(m, sender, target) && Accepts(old(inbound), m) then
                && state == NextState(old(state), m) && base == old(base)
                && log == old(log) + GapSegment(old(inbound), SeqNum(m)) + [Accepted(SeqNum(m))]
                && sent == old(sent) + Answers(old(inbound), old(outbound), old(state), old(heartbeatInterval), m)
                && delivered == (if KindOf(m) == KApplication then old(delivered) + [m] else old(delivered))
                && pendingTestReqId == NextPending(old(pendingTestReqId), m)
                && heartbeatInterval == NextInterval(old(heartbeatInterval), m)
                && outbound == (old(outbound) + |GapRequest(old(inbound), m)| +
                                |Reply(old(state), old(heartbeatInterval), m)|) % U32
              else
                && state == old(state) && sent == old(sent) && delivered == old(delivered)
                && outbound == old(outbound)
                && pendingTestReqId == old(pendingTestReqId) && heartbeatInterval == old(heartbeatInterval)
      ensures !ForUs(m, sender, target) || (KindOf(m) != KSequenceReset && !Accepts(old(inbound), m)) ==>
        base == old(base) && log == old(log)
      ensures ForUs(m, sender, target) && KindOf(m) == KSequenceReset && old(Valid()) ==>
        if IsGapFill(m) || TagInt(m, NEW_SEQ_NO).None? then
          && base == old(base)
          && log == old(log) + (if inbound == old(inbound) then [] else [Filled(old(inbound), inbound - 1)])
        else base == inbound && log == []
    {
      hide NextPending, NextInterval, ForUs, KindOf, TagInt, GetTag, Reply, Replay, NextState, Answers, SeqNum;
      hide Tiles, RequestedByLog, AcceptedNumbers, RequestedByMessages, Consecutive, Increasing;
      if !ForUs(m, sender, target) { return; }
      var seqNum := SeqNum(m);
      if KindOf(m) == KSequenceReset {
        HandleSequenceReset(m);
        return;
      }
      if seqNum < inbound { return; }
      OnAccepted(m);
    }
  }

  function NumbersOf(ms: seq<Fields>): (r: seq<nat>)
    ensures |r| == |ms| && forall i :: 0 <= i < |ms| ==> r[i] == SeqNum(ms[i])
  {
    seq(|ms|, i requires 0 <= i < |ms| => SeqNum(ms[i]))
  }

  lemma NothingSent(sent: seq<Out>)
    ensures Consecutive(sent[|sent|..], 1)
  {
  }

  lemma TailAppend(sent: seq<Out>, mark: nat, o: Out)
    requires mark <= |sent|
    ensures (sent + [o])[mark..] == sent[mark..] + [o]
    ensures (sent + [o])[mark..][..|sent| - mark] == sent[mark..]
  {
  }

  // A gap fill reply neither requests anything nor takes a number.
  lemma ReplyAppend(sent: seq<Out>, mark: nat, o: Out, next: nat)
    requires mark <= |sent| && o.GapFillReply?
    ensures RequestedByMessages((sent + [o])[mark..]) == RequestedByMessages(sent[mark..])
    ensures Consecutive((sent + [o])[mark..], next) <==> Consecutive(sent[mark..], next)
  {
    TailAppend(sent, mark, o);
  }

  lemma LogAppend(log: seq<Segment>, lo: nat, hi: nat, s: Segment)
    requires Tiles(log, lo, hi) && s.first == hi < End(s)
    ensures Tiles(log + [s], lo, End(s))
    ensures RequestedByLog(log + [s]) == RequestedByLog(log) + if s.Requested? then [(s.first, s.last)] else []
    ensures AcceptedNumbers(log + [s]) == AcceptedNumbers(log) + if s.Accepted? then [s.first] else []
  {
    TilesAppend(log, lo, hi, s);
    assert (log + [s])[..|log|] == log;
  }

  lemma DeliveredAppend(delivered: seq<Fields>, mark: nat, m: Fields)
    requires mark <= |delivered|
    ensures (delivered + [m])[mark..] == delivered[mark..] + [m]
  {
  }

  lemma IncreasingAppend(ns: seq<nat>, n: nat)
    requires forall x :: x in ns ==> x < n
    ensures Increasing(ns) ==> Increasing(ns + [n])
  {
    forall i | 0 <= i < |ns| ensures ns[i] < n { assert ns[i] in ns; }
  }

  function GapSegment(inbound: nat, seqNum: nat): seq<Segment> {
    if seqNum > inbound then [Requested(inbound, seqNum - 1)] else []
  }

  // Logging a gap, if any, and an accepted number.
  lemma AcceptLog(log: seq<Segment>, base: nat, inbound: nat, seqNum: nat)
    requires Tiles(log, base, inbound) && inbound <= seqNum
    ensures var log' := log + GapSegment(inbound, seqNum) + [Accepted(seqNum)];
      && Tiles(log', base, seqNum + 1) && !Tiles(log', base, 0)
      && AcceptedNumbers(log') == AcceptedNumbers(log) + [seqNum]
      && RequestedByLog(log') == RequestedByLog(log) + if seqNum > inbound then [(inbound, seqNum - 1)] else []
  {
    if seqNum > inbound {
      LogAppend(log, base, inbound, Requested(inbound, seqNum - 1));
    } else {
      assert log + GapSegment(inbound, seqNum) == log;
    }
    LogAppend(log + GapSegment(inbound, seqNum), base, seqNum, Accepted(seqNum));
  }

  lemma RequestAppend(sent: seq<Out>, mark: nat, number: nat, begin: nat, end: nat)
    requires mark <= |sent|
    ensures var o := Numbered(number, ResendRequest(begin, end, true));
      RequestedByMessages((sent + [o])[mark..]) == RequestedByMessages(sent[mark..]) + [(begin, end)]
  {
    TailAppend(sent, mark, Numbered(number, ResendRequest(begin, end, true)));
  }

  lemma NumberAppend(gap: seq<Content>, reply: seq<Content>, from: nat)
    requires |gap| <= 1 && from < U32
    ensures Number(gap + reply, from) ==
            (if gap == [] then [] else [Numbered(from, gap[0])]) + Number(reply, (from + |gap|) % U32)
  {
    if gap == [] {
      assert gap + reply == reply;
    } else {
      NumberFirst(gap[0], reply, from);
      assert gap + reply == [gap[0]] + reply;
    }
  }

  lemma NumberFirst(c: Content, cs: seq<Content>, from: nat)
    ensures Number([c] + cs, from) == [Numbered(from, c)] + Number(cs, (from + 1) % U32)
  {
    var all := [c] + cs;
    assert all != [] && all[0] == c && all[1..] == cs;
  }

  /**
   The books of a session at any moment of any run: since the last reset every number below the expected one
   is accounted for exactly once, each gap was requested once with its exact range, what was requested or gap
   filled is never delivered, delivered numbers increase, and the outbound number counts what was sent.
   */
  lemma NumbersAccountedFor(s: Session, n: nat)
    requires s.Valid()
    ensures CoverCount(s.log, n) == if s.base <= n < s.inbound then 1 else 0
    ensures RequestedByMessages(s.sent[s.sentMark..]) == RequestedByLog(s.log)
    ensures (exists i :: 0 <= i < |s.log| && !s.log[i].Accepted? && Covers(s.log[i], n)) ==> n !in s.DeliveredNumbers()
    ensures Increasing(s.DeliveredNumbers())
    ensures s.outbound == (NumberedCount(s.sent[s.outMark..]) + 1) % U32
  {
    hide Tiles, RequestedByMessages, RequestedByLog, AcceptedNumbers, CoverCount, Consecutive, NumberedCount;
    hide Increasing, Covers;
    EachNumberOnce(s.log, s.base, s.inbound, n);
    if i :| 0 <= i < |s.log| && !s.log[i].Accepted? && Covers(s.log[i], n) {
      RequestedIsNeverAccepted(s.log, s.base, s.inbound, i, n);
    }
    NumbersCount(s.sent[s.outMark..], s.outbound);
  }

  // ---------------------------------------------------------------- after the largest number

  // A fresh session that receives number 2^32 - 1 expects 0 next, so it takes the same message again.
  method WrappedNumber(sender: Bytes, target: Bytes) returns (s: Session, m: Fields)
    ensures SeqNum(m) == U32 - 1 && s.delivered == [m, m]
    ensures AcceptedNumbers(s.log) == [U32 - 1, U32 - 1] && !s.Valid()
  {
    hide Digits, TagInt, GetTag, IsGapFill, AcceptedNumbers, Tiles, GapSegment;
    m := [Field(MSG_SEQ_NUM, Digits(U32 - 1)), Field(MSG_TYPE, [68])];
    LargestNumber(m);
    s := new Session(sender, target);
    TakeLargest(s, m);
    var first := s.log;
    TakeLargest(s, m);
    LargestLog(1, 0, first, s.log);
    AcceptedAgain(s);
  }

  // An application message numbered 2^32 - 1 is delivered, and the expected number becomes 0.
  method TakeLargest(s: Session, m: Fields)
    requires s.OutboundOk() && s.inbound < U32 && ForUs(m, s.sender, s.target)
    requires SeqNum(m) == U32 - 1 && KindOf(m) == KApplication
    modifies s
    ensures s.OutboundOk() && s.inbound == 0 && s.delivered == old(s.delivered) + [m]
    ensures s.log == old(s.log) + GapSegment(old(s.inbound), U32 - 1) + [Accepted(U32 - 1)]
  {
    hide ForUs, KindOf, SeqNum, Answers, NextState, NextPending, NextInterval, TagInt, IsGapFill, GapSegment;
    hide Session.InboundOk, Session.OutboundOk;
    s.OnMessage(m);
  }

  lemma LargestLog(a: nat, b: nat, first: seq<Segment>, log: seq<Segment>)
    requires a < U32 - 1 && b < U32 - 1
    requires first == [] + GapSegment(a, U32 - 1) + [Accepted(U32 - 1)]
    requires log == first + GapSegment(b, U32 - 1) + [Accepted(U32 - 1)]
    ensures AcceptedNumbers(log) == [U32 - 1, U32 - 1]
  {
    hide AcceptedNumbers;
    assert first == [Requested(a, U32 - 2), Accepted(U32 - 1)];
    assert log == [Requested(a, U32 - 2), Accepted(U32 - 1), Requested(b, U32 - 2), Accepted(U32 - 1)];
    AcceptedTwice(log);
  }

  // No session in good order has accepted a number twice.
  lemma AcceptedAgain(s: Session)
    requires AcceptedNumbers(s.log) == [U32 - 1, U32 - 1]
    ensures !s.Valid()
  {
    if s.Valid() {
      AcceptedIncreasing(s.log, s.base, s.inbound);
      IncreasingPair(AcceptedNumbers(s.log));
    }
  }

  lemma LargestNumber(m: Fields)
    requires m == [Field(MSG_SEQ_NUM, Digits(U32 - 1)), Field(MSG_TYPE, [68])]
    ensures SeqNum(m) == U32 - 1 && KindOf(m) == KApplication
    ensures forall sender, target :: ForUs(m, sender, target)
  {
    hide ParseInt, Digits;
    ParseDigits(U32 - 1, LLONG_MAX);
    assert m[1..] == [m[1]] && m[1..][1..] == [];
    forall tag: int | tag != MSG_SEQ_NUM
      ensures GetTag(m, tag) == if tag == MSG_TYPE then Some([68]) else None
    {
      assert GetTag(m, tag) == GetTag(m[1..], tag);
    }
  }

  lemma AcceptedTwice(log: seq<Segment>)
    requires |log| == 4 && log[0].Requested? && log[1].Accepted? && log[2].Requested? && log[3].Accepted?
    ensures AcceptedNumbers(log) == [log[1].first, log[3].first]
  {
    assert log[..3][..2] == log[..2] && log[..2][..1] == log[..1] && log[..1][..0] == [];
    assert AcceptedNumbers(log[..1]) == [];
    assert AcceptedNumbers(log[..2]) == [log[1].first];
    assert AcceptedNumbers(log[..3]) == [log[1].first];
  }

  lemma IncreasingPair(ns: seq<nat>)
    requires |ns| == 2 && Increasing(ns)
    ensures ns[0] < ns[1]
  {
  }

  // ---------------------------------------------------------------- two sessions

  // The expected number of a counterparty that has read the messages one after the other.
  function PeerInbound(outs: seq<Out>, sender: Bytes, target: Bytes, time: Bytes): nat {
    if outs == [] then 1
    else NextInbound(PeerInbound(outs[..|outs| - 1], sender, target, time),
                     Render(outs[|outs| - 1], sender, target, time))
  }

  // Numbered messages other than sequence resets, none numbered 2^32 - 1.
  predicate Ordinary(o: Out) {
    o.Numbered? && o.number < U32 - 1 && KindOfContent(o.content) != KSequenceReset
  }

  /**
   A counterparty that reads everything in order expects exactly the number that will be sent next, so it never
   requests a resend.
   */
  lemma {:induction false} PeerKeepsUp(outs: seq<Out>, next: nat, sender: Bytes, target: Bytes, time: Bytes)
    requires Consecutive(outs, next) && forall i :: 0 <= i < |outs| ==> Ordinary(outs[i])
    ensures PeerInbound(outs, sender, target, time) == next
    ensures forall i :: 0 <= i < |outs| ==>
      GapRequest(PeerInbound(outs[..i], sender, target, time), Render(outs[i], sender, target, time)) == []
  {
    hide Render, NextInbound, GapRequest, Ordinary;
    if outs != [] {
      var n := |outs| - 1;
      var front, o := outs[..n], outs[n];
      assert Ordinary(o);
      PeerStep(o, sender, target, time);
      PeerKeepsUp(front, o.number, sender, target, time);
      forall i | 0 <= i < |outs|
        ensures GapRequest(PeerInbound(outs[..i], sender, target, time), Render(outs[i], sender, target, time)) == []
      {
        if i < n { assert outs[..i] == front[..i] && outs[i] == front[i]; }
      }
    }
  }

  // A message with the expected number is accepted without a request and moves the expected number by one.
  lemma PeerStep(o: Out, sender: Bytes, target: Bytes, time: Bytes)
    requires Ordinary(o)
    ensures o.Numbered? && GapRequest(o.number, Render(o, sender, target, time)) == []
    ensures NextInbound(o.number, Render(o, sender, target, time)) == (o.number + 1) % U32
  {
    hide SeqNum, KindOf, Render;
    RenderedOrdinary(o, sender, target, time);
  }

  lemma RenderedOrdinary(o: Out, sender: Bytes, target: Bytes, time: Bytes)
    requires Ordinary(o)
    ensures var m := Render(o, sender, target, time);
      SeqNum(m) == o.number && KindOf(m) == KindOfContent(o.content) && ForUs(m, target, sender)
  {
    hide GetTag, Stamp, ParseInt, Decimal, ToInt;
    StampTags(Body(o.content), sender, target, o.number, time, MSG_TYPE);
    NumberReadsBack(o.number);
    BodyKind(o.content);
  }
}
