/**
 Two FIX sessions talking to each other: what each side hears is what the other sent, and what logon, logout,
 test request and resend request end in.
 */
module FixExchange {
  import opened Basics
  import opened FixText
  import opened FixMessage
  import opened FixAdmin
  import opened FixSession

  // ---------------------------------------------------------------- what a gap fill reaches

  lemma NumberTag(number: nat, c: Content, sender: Bytes, target: Bytes, time: Bytes, tag: int, v: int)
    requires IsBodyTag(tag) && !IsStamped(tag) && GetTag(Body(c), tag) == Some(Decimal(ToInt(v)))
    ensures TagInt(Heard(Numbered(number, c), sender, target, time), tag) == Some(ToInt(v))
  {
    hide Heard, Body, Decimal, ToInt, ParseInt, GetTag;
    HeardTag(number, c, sender, target, time, tag);
    NumberReadsBack(v);
  }

  lemma SignedRange(v: nat)
    requires v < U32
    ensures ToInt(v) == if v <= INT_MAX then v else v - U32
  {
  }

  /**
   From the requester's side: it asks for first to last, hears the reply and then expects last + 1.  Without an end,
   or with one that the signed text turns negative, it expects the number the other side will send next.
   */
  lemma ReplayFills(first: nat, last: nat, number: nat, outbound: nat, us: Bytes, them: Bytes, time: Bytes)
    requires first < U32 && last < U32 && number < U32 && outbound < U32
    ensures var m := Heard(Numbered(number, ResendRequest(first, last, true)), them, us, time);
      var reach := if 1 <= last <= INT_MAX then last + 1 else outbound;
      && |Replay(m, outbound)| == 1
      && var reply := Heard(Replay(m, outbound)[0], us, them, time);
         && ForUs(reply, them, us) && SeqNum(reply) == first
         && NextInbound(first, reply) == if reach > first then reach else first
  {
    hide Heard, GetTag, ParseInt, Decimal, Body, ForUs;
    var c := ResendRequest(first, last, true);
    var m := Heard(Numbered(number, c), them, us, time);
    HeardHeader(number, c, them, us, time, us, them);
    ContentTags(c);
    NumberTag(number, c, them, us, time, BEGIN_SEQ_NO, first);
    NumberTag(number, c, them, us, time, END_SEQ_NO, last);
    SignedRange(first);
    SignedRange(last);
    var reach := if 1 <= last <= INT_MAX then last + 1 else outbound;
    hide TagInt, SeqNum, KindOf, ToInt;
    assert Replay(m, outbound) == [GapFillReply(ToInt(first), reach)];
    HeardGapFill(ToInt(first), reach, us, them, time);
  }

  /** A sequence reset sets the number the other side expects; as a gap fill it only ever moves it forward. */
  lemma ResetReaches(newSeq: nat, gapFill: bool, number: nat, inbound: nat, us: Bytes, them: Bytes, time: Bytes)
    requires newSeq < U32 && number < U32
    ensures NextInbound(inbound, Heard(Numbered(number, SequenceReset(newSeq, gapFill)), us, them, time)) ==
            if gapFill && newSeq < inbound then inbound else newSeq
  {
    hide Heard, GetTag, ParseInt, Decimal, Body, ForUs;
    var c := SequenceReset(newSeq, gapFill);
    HeardHeader(number, c, us, them, time, them, us);
    ContentTags(c);
    NumberTag(number, c, us, them, time, NEW_SEQ_NO, newSeq);
    HeardTag(number, c, us, them, time, GAP_FILL_FLAG);
    SignedRange(newSeq);
    hide TagInt, SeqNum, KindOf;
  }

  // ---------------------------------------------------------------- exchanges

  // Each side expects the number the other will send next, and no number is about to wrap.
  ghost predicate InStep(a: Session, b: Session)
    reads a, b
  {
    && a != b && a.sender == b.target && a.target == b.sender && a.OutboundOk() && b.OutboundOk()
    && a.inbound == b.outbound < U32 - 2 && b.inbound == a.outbound < U32 - 2
  }

  // The session hears the next message of its counterparty.
  method Hear(s: Session, c: Content, time: Bytes) returns (m: Fields)
    requires s.OutboundOk() && s.inbound < U32 - 1 && KindOfContent(c) != KSequenceReset
    modifies s
    ensures m == Heard(Numbered(old(s.inbound), c), s.target, s.sender, time) && KindOf(m) == KindOfContent(c)
    ensures s.OutboundOk() && s.inbound == old(s.inbound) + 1 && s.state == NextState(old(s.state), m)
    ensures var reply := Reply(old(s.state), old(s.heartbeatInterval), m);
      && s.sent == old(s.sent) + Number(reply, old(s.outbound)) + Replay(m, old(s.outbound))
      && s.outbound == (old(s.outbound) + |reply|) % U32
    ensures s.delivered == if KindOf(m) == KApplication then old(s.delivered) + [m] else old(s.delivered)
    ensures s.pendingTestReqId == NextPending(old(s.pendingTestReqId), m)
    ensures s.heartbeatInterval == NextInterval(old(s.heartbeatInterval), m)
  {
    hide Heard, SeqNum, KindOf, ForUs, NextState, NextPending, NextInterval, Reply, Replay, Number, Session.InboundOk;
    hide TagInt, IsGapFill, GapSegment, Consecutive, KindOfContent;
    m := Heard(Numbered(s.inbound, c), s.target, s.sender, time);
    HeardHeader(s.inbound, c, s.target, s.sender, time, s.sender, s.target);
    ghost var reply := Reply(s.state, s.heartbeatInterval, m);
    assert [] + reply == reply && s.outbound % U32 == s.outbound;
    s.OnMessage(m);
    assert old(s.sent) + (Number(reply, old(s.outbound)) + Replay(m, old(s.outbound))) ==
           old(s.sent) + Number(reply, old(s.outbound)) + Replay(m, old(s.outbound));
  }

  lemma OneNumber(c: Content, n: nat)
    ensures Number([c], n) == [Numbered(n, c)]
  {
    assert [c][1..] == [];
  }

  /** A logon and its answer: both sides end up active, in step, with the interval of the one who logged on. */
  method LogonExchange(a: Session, b: Session, time: Bytes)
    requires InStep(a, b) && b.state == Disconnected && 0 < a.heartbeatInterval <= INT_MAX
    modifies a, b
    ensures a.state == Active && b.state == Active && a.inbound == b.outbound && b.inbound == a.outbound
    ensures a.outbound == old(a.outbound) + 1 && b.outbound == old(b.outbound) + 1
    ensures a.heartbeatInterval == b.heartbeatInterval == old(a.heartbeatInterval)
    ensures a.delivered == old(a.delivered) && b.delivered == old(b.delivered)
  {
    hide Heard, Body, Decimal, ParseInt, GetTag, Consecutive, KindOf, Session.InboundOk;
    var interval := a.heartbeatInterval;
    SignedRange(interval);
    a.SendLogon(false);
    ContentTags(Logon(false, interval));
    NumberTag(b.inbound, Logon(false, interval), b.target, b.sender, time, HEART_BT_INT, interval);
    OneNumber(Logon(false, interval), b.outbound);
    var m := Hear(b, Logon(false, interval), time);
    NumberTag(a.inbound, Logon(false, interval), a.target, a.sender, time, HEART_BT_INT, interval);
    m := Hear(a, Logon(false, interval), time);
  }

  /** A logout is answered with the same text and leaves both sides disconnected, in step. */
  method LogoutExchange(a: Session, b: Session, text: Option<Bytes>, time: Bytes)
    requires InStep(a, b) && b.state != LogoutSent
    modifies a, b
    ensures a.state == Disconnected && b.state == Disconnected && a.inbound == b.outbound && b.inbound == a.outbound
    ensures a.sent == old(a.sent) + [Numbered(old(a.outbound), Logout(text))]
    ensures b.sent == old(b.sent) + [Numbered(old(b.outbound), Logout(text))]
    ensures a.delivered == old(a.delivered) && b.delivered == old(b.delivered)
  {
    hide Heard, Body, Decimal, ParseInt, GetTag, Consecutive, KindOf, Session.InboundOk, NextInterval;
    a.SendLogout(text);
    ContentTags(Logout(text));
    HeardTag(b.inbound, Logout(text), b.target, b.sender, time, TEXT);
    OneNumber(Logout(text), b.outbound);
    var m := Hear(b, Logout(text), time);
    m := Hear(a, Logout(text), time);
  }

  /** A test request is answered by a heartbeat with its id, which settles it. */
  method TestRequestExchange(a: Session, b: Session, id: Bytes, time: Bytes)
    requires InStep(a, b)
    modifies a, b
    ensures a.pendingTestReqId == [] && a.inbound == b.outbound && b.inbound == a.outbound
    ensures a.state == old(a.state) && b.state == old(b.state) && b.pendingTestReqId == old(b.pendingTestReqId)
    ensures a.sent == old(a.sent) + [Numbered(old(a.outbound), TestRequest(id))]
    ensures b.sent == old(b.sent) + [Numbered(old(b.outbound), Heartbeat(Some(id)))]
  {
    hide Heard, Body, Decimal, ParseInt, GetTag, Consecutive, KindOf, Session.InboundOk, NextInterval;
    a.Send(TestRequest(id));
    ContentTags(TestRequest(id));
    ContentTags(Heartbeat(Some(id)));
    HeardTag(b.inbound, TestRequest(id), b.target, b.sender, time, TEST_REQ_ID);
    OneNumber(Heartbeat(Some(id)), b.outbound);
    var m := Hear(b, TestRequest(id), time);
    HeardTag(a.inbound, Heartbeat(Some(id)), a.target, a.sender, time, TEST_REQ_ID);
    m := Hear(a, Heartbeat(Some(id)), time);
  }

  /** A heartbeat that answers nothing changes nothing but the count. */
  method PlainHeartbeat(a: Session, b: Session, time: Bytes)
    requires InStep(a, b)
    modifies a, b
    ensures a.pendingTestReqId == old(a.pendingTestReqId) && a.state == old(a.state)
    ensures a.sent == old(a.sent) && a.delivered == old(a.delivered)
    ensures a.inbound == b.outbound == old(b.outbound) + 1 && a.outbound == old(a.outbound) == b.inbound
  {
    hide Heard, Body, Decimal, ParseInt, GetTag, Consecutive, KindOf, Session.InboundOk, NextInterval;
    b.Send(Heartbeat(None));
    ContentTags(Heartbeat(None));
    HeardTag(a.inbound, Heartbeat(None), a.target, a.sender, time, TEST_REQ_ID);
    var m := Hear(a, Heartbeat(None), time);
    assert a.sent == old(a.sent) + [] + [];
  }

  /** An application message reaches the other side's application once, and is not answered. */
  method ApplicationExchange(a: Session, b: Session, fields: Fields, time: Bytes)
    requires InStep(a, b) && KindOf(fields) == KApplication
    modifies a, b
    ensures b.delivered == old(b.delivered) +
                           [Heard(Numbered(old(a.outbound), Application(fields)), a.sender, a.target, time)]
    ensures b.sent == old(b.sent) && b.state == old(b.state) && b.pendingTestReqId == old(b.pendingTestReqId)
    ensures a.inbound == b.outbound && b.inbound == a.outbound && a.delivered == old(a.delivered)
  {
    hide Heard, Body, Decimal, ParseInt, GetTag, Consecutive, KindOf, Session.InboundOk, NextInterval;
    a.Send(Application(fields));
    var m := Hear(b, Application(fields), time);
    assert b.sent == old(b.sent) + [] + [];
  }
}
