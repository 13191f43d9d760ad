/**
 What the FIX session puts on the wire and reads back: the tags of the administrative messages, the header
 stamped on every outbound message, and the reading of kind, number and addressee.
 */
module FixAdmin {
  import opened Basics
  import opened FixText
  import opened FixMessage

  // What a message sent through send_message_locked says.  `detected` marks a resend request made by gap
  // detection rather than by the application; it is not on the wire.
  datatype Content =
    | Logon(reset: bool, interval: int)
    | Logout(text: Option<Bytes>)
    | Heartbeat(testReqId: Option<Bytes>)
    | TestRequest(testId: Bytes)
    | ResendRequest(begin: nat, end: nat, detected: bool)
    | SequenceReset(newSeq: nat, gapFill: bool)
    | Reject(refSeq: nat, reason: int, because: Option<Bytes>)
    | Application(fields: Fields)

  datatype Out =
    | Numbered(number: nat, content: Content)     // carries the next outbound number
    | GapFillReply(first: int, next: nat)         // reuses the number it was asked to resend

  // ---------------------------------------------------------------- reading a message

  const MSG_SEQ_NUM := 34
  const MSG_TYPE := 35
  const SENDER_COMP_ID := 49
  const TARGET_COMP_ID := 56
  const TEXT := 58
  const HEART_BT_INT := 108
  const TEST_REQ_ID := 112
  const GAP_FILL_FLAG := 123
  const ENCRYPT_METHOD := 98
  const RESET_SEQ_NUM_FLAG := 141
  const REF_SEQ_NUM := 45
  const SENDING_TIME := 52
  const SESSION_REJECT_REASON := 373
  const BEGIN_SEQ_NO := 7
  const END_SEQ_NO := 16
  const NEW_SEQ_NO := 36
  const YES: Bytes := [89]

  function TagInt(m: Fields, tag: int): Option<int> {
    var v := GetTag(m, tag);
    if v.None? then None else ParseInt(v.value, LLONG_MAX)
  }

  function ToU32(v: int): (r: nat)
    ensures r < U32
  {
    v % U32
  }

  // MsgSeqNum, or zero when it is missing or not a number.
  function SeqNum(m: Fields): (r: nat)
    ensures r < U32
  {
    var v := TagInt(m, MSG_SEQ_NUM);
    if v.None? then 0 else ToU32(v.value)
  }

  datatype Kind =
    | KHeartbeat | KTestRequest | KResendRequest | KReject | KSequenceReset | KLogout | KLogon | KApplication

  function KindOf(m: Fields): Kind {
    var v := GetTag(m, MSG_TYPE);
    if v.None? || v.value == [] then KApplication
    else
      var c := v.value[0];
      if c == 48 then KHeartbeat
      else if c == 49 then KTestRequest
      else if c == 50 then KResendRequest
      else if c == 51 then KReject
      else if c == 52 then KSequenceReset
      else if c == 53 then KLogout
      else if c == 65 then KLogon
      else KApplication
  }

  // Comp ids are checked only when present; theirs must mirror ours.
  predicate ForUs(m: Fields, sender: Bytes, target: Bytes) {
    var s, t := GetTag(m, SENDER_COMP_ID), GetTag(m, TARGET_COMP_ID);
    (s.None? || s.value == target) && (t.None? || t.value == sender)
  }

  // ---------------------------------------------------------------- writing a message

  // static_cast<int>: the same 32 bits, read as signed.
  function ToInt(v: int): (r: int)
    ensures 0 - INT_MAX - 1 <= r <= INT_MAX && r % U32 == v % U32
  {
    (v + INT_MAX + 1) % U32 - INT_MAX - 1
  }

  // Overwrites the first field with the tag, or appends one.
  function SetTag(fs: Fields, tag: int, value: Bytes): Fields {
    if fs == [] then [Field(tag, value)]
    else if fs[0].tag == tag then [Field(tag, value)] + fs[1..]
    else [fs[0]] + SetTag(fs[1..], tag, value)
  }

  lemma {:induction false} GetSetTag(fs: Fields, tag: int, value: Bytes, other: int)
    ensures GetTag(SetTag(fs, tag, value), other) == if other == tag then Some(value) else GetTag(fs, other)
  {
    if fs != [] && fs[0].tag != tag {
      GetSetTag(fs[1..], tag, value, other);
      assert SetTag(fs, tag, value)[1..] == SetTag(fs[1..], tag, value);
    } else if fs != [] {
      assert SetTag(fs, tag, value)[1..] == fs[1..];
    }
  }

  method WriteTag(fs: Fields, tag: int, value: Bytes) returns (r: Fields)
    ensures r == SetTag(fs, tag, value)
  {
    for i := 0 to |fs|
      invariant SetTag(fs, tag, value) == fs[..i] + SetTag(fs[i..], tag, value)
    {
      if fs[i].tag == tag {
        assert fs[i..][1..] == fs[i + 1..];
        assert fs[..i] + ([Field(tag, value)] + fs[i + 1..]) == fs[i := Field(tag, value)];
        return fs[i := Field(tag, value)];
      }
      assert fs[i..][1..] == fs[i + 1..] && fs[..i] + ([fs[i]] + SetTag(fs[i + 1..], tag, value))
          == fs[..i + 1] + SetTag(fs[i + 1..], tag, value);
    }
    assert fs[..|fs|] == fs && fs[|fs|..] == [];
    return fs + [Field(tag, value)];
  }

  function Optional(tag: int, value: Option<Bytes>): Fields {
    if value.Some? then [Field(tag, value.value)] else []
  }

  // The fields a message has before the header is stamped.
  function Body(c: Content): Fields {
    match c
    case Logon(reset, interval) =>
      [Field(MSG_TYPE, [65]), Field(ENCRYPT_METHOD, [48]), Field(HEART_BT_INT, Decimal(ToInt(interval)))] +
      Optional(RESET_SEQ_NUM_FLAG, if reset then Some(YES) else None)
    case Logout(text) => [Field(MSG_TYPE, [53])] + Optional(TEXT, text)
    case Heartbeat(testReqId) => [Field(MSG_TYPE, [48])] + Optional(TEST_REQ_ID, testReqId)
    case TestRequest(testId) => [Field(MSG_TYPE, [49]), Field(TEST_REQ_ID, testId)]
    case ResendRequest(begin, end, _) =>
      [Field(MSG_TYPE, [50]), Field(BEGIN_SEQ_NO, Decimal(ToInt(begin))), Field(END_SEQ_NO, Decimal(ToInt(end)))]
    case SequenceReset(newSeq, gapFill) =>
      [Field(MSG_TYPE, [52]), Field(NEW_SEQ_NO, Decimal(ToInt(newSeq)))] +
      Optional(GAP_FILL_FLAG, if gapFill then Some(YES) else None)
    case Reject(refSeq, reason, because) =>
      [Field(MSG_TYPE, [51]), Field(REF_SEQ_NUM, Decimal(ToInt(refSeq)))] + Optional(TEXT, because) +
      Optional(SESSION_REJECT_REASON, if reason >= 0 then Some(Decimal(reason)) else None)
    case Application(fields) => fields
  }

  function Stamp(fs: Fields, sender: Bytes, target: Bytes, number: int, time: Bytes): Fields {
    SetTag(SetTag(SetTag(SetTag(fs, SENDER_COMP_ID, sender), TARGET_COMP_ID, target),
                  MSG_SEQ_NUM, Decimal(ToInt(number))), SENDING_TIME, time)
  }

  // The message as it goes out at a given time.
  function Render(o: Out, sender: Bytes, target: Bytes, time: Bytes): Fields {
    match o
    case Numbered(number, content) => Stamp(Body(content), sender, target, number, time)
    case GapFillReply(first, next) =>
      Stamp([Field(MSG_TYPE, [52]), Field(GAP_FILL_FLAG, YES), Field(NEW_SEQ_NO, Decimal(ToInt(next))),
             Field(MSG_SEQ_NUM, Decimal(ToInt(first)))], sender, target, first, time)
  }

  // ---------------------------------------------------------------- what the counterparty reads

  predicate IsStamped(tag: int) {
    tag == SENDER_COMP_ID || tag == TARGET_COMP_ID || tag == MSG_SEQ_NUM || tag == SENDING_TIME
  }

  lemma StampTags(fs: Fields, sender: Bytes, target: Bytes, number: int, time: Bytes, tag: int)
    ensures var r := Stamp(fs, sender, target, number, time);
      && GetTag(r, SENDER_COMP_ID) == Some(sender) && GetTag(r, TARGET_COMP_ID) == Some(target)
      && GetTag(r, MSG_SEQ_NUM) == Some(Decimal(ToInt(number))) && GetTag(r, SENDING_TIME) == Some(time)
      && (!IsStamped(tag) ==> GetTag(r, tag) == GetTag(fs, tag))
  {
    hide SetTag, GetTag, Decimal, ToInt;
    var a := SetTag(fs, SENDER_COMP_ID, sender);
    var b := SetTag(a, TARGET_COMP_ID, target);
    var c := SetTag(b, MSG_SEQ_NUM, Decimal(ToInt(number)));
    forall t: int
      ensures GetTag(a, t) == if t == SENDER_COMP_ID then Some(sender) else GetTag(fs, t)
      ensures GetTag(b, t) == if t == TARGET_COMP_ID then Some(target) else GetTag(a, t)
      ensures GetTag(c, t) == if t == MSG_SEQ_NUM then Some(Decimal(ToInt(number))) else GetTag(b, t)
      ensures GetTag(SetTag(c, SENDING_TIME, time), t) == if t == SENDING_TIME then Some(time) else GetTag(c, t)
    {
      GetSetTag(fs, SENDER_COMP_ID, sender, t);
      GetSetTag(a, TARGET_COMP_ID, target, t);
      GetSetTag(b, MSG_SEQ_NUM, Decimal(ToInt(number)), t);
      GetSetTag(c, SENDING_TIME, time, t);
    }
  }

  lemma {:induction false} GetTagConcat(a: Fields, b: Fields, tag: int)
    ensures GetTag(a + b, tag) == if GetTag(a, tag).Some? then GetTag(a, tag) else GetTag(b, tag)
  {
    if a == [] {
      assert a + b == b;
    } else {
      GetTagConcat(a[1..], b, tag);
      assert (a + b)[1..] == a[1..] + b;
    }
  }

  lemma {:induction false} GetTagBody(fs: Fields, tag: int)
    requires IsBodyTag(tag)
    ensures GetTag(BodyFields(fs), tag) == GetTag(fs, tag)
  {
    if fs != [] {
      var front, f := fs[..|fs| - 1], fs[|fs| - 1];
      GetTagBody(front, tag);
      assert fs == front + [f];
      GetTagConcat(front, [f], tag);
      GetTagConcat(BodyFields(front), [f], tag);
      assert [f][1..] == [] && BodyFields(front) + [] == BodyFields(front);
    }
  }

  // Header and trailer do not disturb the other tags.
  lemma GetTagComplete(fs: Fields, tag: int)
    requires IsBodyTag(tag)
    ensures GetTag(Complete(fs), tag) == GetTag(fs, tag)
  {
    hide FieldsBytes, CheckSum, Digits;
    var body := BodyFields(fs);
    var header, trailer := HeaderFields(|FieldsBytes(body)|), [Field(CHECK_SUM, CheckSum(BeforeCheckSum(fs)))];
    GetTagConcat(header + body, trailer, tag);
    GetTagConcat(header, body, tag);
    assert header[1..][1..] == [] && trailer[1..] == [];
    GetTagBody(fs, tag);
  }

  // The number of a printed 32-bit value is that value, although it is printed as a signed int.
  lemma NumberReadsBack(number: int)
    ensures ParseInt(Decimal(ToInt(number)), LLONG_MAX) == Some(ToInt(number)) && ToU32(ToInt(number)) == number % U32
  {
    ParseDecimal(ToInt(number), LLONG_MAX);
  }

  function KindOfContent(c: Content): Kind {
    match c
    case Logon(_, _) => KLogon
    case Logout(_) => KLogout
    case Heartbeat(_) => KHeartbeat
    case TestRequest(_) => KTestRequest
    case ResendRequest(_, _, _) => KResendRequest
    case SequenceReset(_, _) => KSequenceReset
    case Reject(_, _, _) => KReject
    case Application(fields) => KindOf(fields)
  }

  /**
   From session to session: what one side sends, the other parses; it is addressed to that side and carries the
   number and the kind it was sent with, over the whole 32-bit range.
   */
  lemma PeerReads(number: nat, c: Content, sender: Bytes, target: Bytes, time: Bytes)
    requires number < U32 && AllCarriable(Render(Numbered(number, c), sender, target, time))
    ensures var m := Parse(Serialize(Render(Numbered(number, c), sender, target, time)));
      m.Some? && SeqNum(m.value) == number && KindOf(m.value) == KindOfContent(c) && ForUs(m.value, target, sender)
  {
    hide Serialize, Parse, Complete, Render, AllCarriable, ParseInt, GetTag, KindOf;
    HeardIsParsed(Numbered(number, c), sender, target, time);
    HeardHeader(number, c, sender, target, time, target, sender);
  }

  lemma BodyKind(c: Content)
    ensures KindOf(Body(c)) == KindOfContent(c)
  {
    hide Decimal, ToInt;
    if !c.Application? { assert Body(c)[0].tag == MSG_TYPE; }
  }

  /** A gap fill reply reads back as a gap fill up to the number it names, under the number it was asked for. */
  lemma PeerReadsGapFill(first: nat, next: nat, sender: Bytes, target: Bytes, time: Bytes)
    requires first < U32 && next < U32 && AllCarriable(Render(GapFillReply(first, next), sender, target, time))
    ensures var m := Parse(Serialize(Render(GapFillReply(first, next), sender, target, time)));
      && m.Some? && SeqNum(m.value) == first && KindOf(m.value) == KSequenceReset && ForUs(m.value, target, sender)
      && GetTag(m.value, GAP_FILL_FLAG) == Some(YES)
      && TagInt(m.value, NEW_SEQ_NO).Some? && ToU32(TagInt(m.value, NEW_SEQ_NO).value) == next
  {
    hide Serialize, Parse, Complete, Render, AllCarriable, ParseInt, GetTag;
    HeardIsParsed(GapFillReply(first, next), sender, target, time);
    HeardGapFill(first, next, sender, target, time);
  }

  /** The administrative messages tag by tag, as FIX 4.4 numbers them. */
  lemma ContentTags(c: Content)
    ensures var b := Body(c);
      match c
      case Logon(reset, interval) =>
        && GetTag(b, 35) == Some([65]) && GetTag(b, 98) == Some([48])
        && GetTag(b, 108) == Some(Decimal(ToInt(interval))) && GetTag(b, 141) == if reset then Some([89]) else None
      case Logout(text) => GetTag(b, 35) == Some([53]) && GetTag(b, 58) == text
      case Heartbeat(id) => GetTag(b, 35) == Some([48]) && GetTag(b, 112) == id
      case TestRequest(id) => GetTag(b, 35) == Some([49]) && GetTag(b, 112) == Some(id)
      case ResendRequest(begin, end, _) =>
        && GetTag(b, 35) == Some([50]) && GetTag(b, 7) == Some(Decimal(ToInt(begin)))
        && GetTag(b, 16) == Some(Decimal(ToInt(end)))
      case SequenceReset(newSeq, gapFill) =>
        && GetTag(b, 35) == Some([52]) && GetTag(b, 36) == Some(Decimal(ToInt(newSeq)))
        && GetTag(b, 123) == if gapFill then Some([89]) else None
      case Reject(refSeq, reason, because) =>
        && GetTag(b, 35) == Some([51]) && GetTag(b, 45) == Some(Decimal(ToInt(refSeq))) && GetTag(b, 58) == because
        && GetTag(b, 373) == if reason >= 0 then Some(Decimal(reason)) else None
      case Application(fields) => b == fields
  {
    hide Decimal, ToInt;
    var b := Body(c);
    match c
    case Logon(reset, interval) => TagsOfThree(b, 98, 108, 141);
    case Logout(text) => TagsOfThree(b, 58, 58, 58);
    case Heartbeat(id) => TagsOfThree(b, 112, 112, 112);
    case TestRequest(id) => TagsOfThree(b, 112, 112, 112);
    case ResendRequest(begin, end, _) => TagsOfThree(b, 7, 16, 16);
    case SequenceReset(newSeq, gapFill) => TagsOfThree(b, 36, 123, 123);
    case Reject(refSeq, reason, because) => TagsOfThree(b, 45, 58, 373);
    case Application(fields) =>
  }

  // The first field of up to four that carries a tag.
  function FirstOf(b: Fields, tag: int): Option<Bytes>
    requires |b| <= 4
  {
    if |b| > 0 && b[0].tag == tag then Some(b[0].value)
    else if |b| > 1 && b[1].tag == tag then Some(b[1].value)
    else if |b| > 2 && b[2].tag == tag then Some(b[2].value)
    else if |b| > 3 && b[3].tag == tag then Some(b[3].value)
    else None
  }

  lemma FirstIsTag(b: Fields, tag: int)
    requires |b| <= 4
    ensures GetTag(b, tag) == FirstOf(b, tag)
  {
    if |b| > 0 {
      assert GetTag(b, tag) == if b[0].tag == tag then Some(b[0].value) else GetTag(b[1..], tag);
    }
    if |b| > 1 {
      assert b[1..][1..] == b[2..];
      assert GetTag(b[1..], tag) == if b[1].tag == tag then Some(b[1].value) else GetTag(b[2..], tag);
    }
    if |b| > 2 {
      assert b[2..][1..] == b[3..];
      assert GetTag(b[2..], tag) == if b[2].tag == tag then Some(b[2].value) else GetTag(b[3..], tag);
    }
    if |b| > 3 {
      assert b[3..][1..] == [];
      assert GetTag(b[3..], tag) == if b[3].tag == tag then Some(b[3].value) else None;
    }
  }

  lemma TagsOfThree(b: Fields, x: int, y: int, z: int)
    requires |b| <= 4
    ensures GetTag(b, 35) == FirstOf(b, 35) && GetTag(b, x) == FirstOf(b, x)
    ensures GetTag(b, y) == FirstOf(b, y) && GetTag(b, z) == FirstOf(b, z)
  {
    FirstIsTag(b, 35);
    FirstIsTag(b, x);
    FirstIsTag(b, y);
    FirstIsTag(b, z);
  }

  // The header tags as FIX 4.4 numbers them.
  lemma HeaderTags(number: nat, c: Content, sender: Bytes, target: Bytes, time: Bytes)
    ensures var r := Render(Numbered(number, c), sender, target, time);
      && GetTag(r, 49) == Some(sender) && GetTag(r, 56) == Some(target) && GetTag(r, 52) == Some(time)
      && GetTag(r, 34) == Some(Decimal(ToInt(number)))
  {
    hide GetTag, Decimal, ToInt, Stamp;
    StampTags(Body(c), sender, target, number, time, 35);
  }

  // The kind is the first letter of tag 35; without it, or with any other letter, a message is for the application.
  lemma KindLetters(m: Fields)
    ensures GetTag(m, 35) == None || GetTag(m, 35) == Some([]) ==> KindOf(m) == KApplication
    ensures GetTag(m, 35).Some? && GetTag(m, 35).value != [] ==>
      var c := GetTag(m, 35).value[0];
      && (KindOf(m) == KHeartbeat <==> c == 48) && (KindOf(m) == KTestRequest <==> c == 49)
      && (KindOf(m) == KResendRequest <==> c == 50) && (KindOf(m) == KReject <==> c == 51)
      && (KindOf(m) == KSequenceReset <==> c == 52) && (KindOf(m) == KLogout <==> c == 53)
      && (KindOf(m) == KLogon <==> c == 65)
  {
  }

  // Without a readable number a message counts as number 0, which no session in count accepts.
  lemma Unnumbered(m: Fields)
    requires GetTag(m, 34) == None || ParseInt(GetTag(m, 34).value, LLONG_MAX) == None
    ensures SeqNum(m) == 0
  {
  }

  // ---------------------------------------------------------------- the message as heard

  // What a counterparty hears: the message with header and trailer around it.
  function Heard(o: Out, sender: Bytes, target: Bytes, time: Bytes): Fields {
    Complete(Render(o, sender, target, time))
  }

  lemma HeardIsParsed(o: Out, sender: Bytes, target: Bytes, time: Bytes)
    requires AllCarriable(Render(o, sender, target, time))
    ensures Parse(Serialize(Render(o, sender, target, time))) == Some(Heard(o, sender, target, time))
  {
    hide Serialize, Parse, Complete, Render, AllCarriable;
    ParseSerialize(Render(o, sender, target, time));
  }

  // Kind and number arrive as sent, and exactly the session with the mirrored comp ids is addressed.
  lemma HeardHeader(number: nat, c: Content, sender: Bytes, target: Bytes, time: Bytes, x: Bytes, y: Bytes)
    requires number < U32
    ensures var m := Heard(Numbered(number, c), sender, target, time);
      SeqNum(m) == number && KindOf(m) == KindOfContent(c) && (ForUs(m, x, y) <==> x == target && y == sender)
  {
    hide Complete, GetTag, Stamp, ParseInt, Decimal, ToInt;
    var r := Render(Numbered(number, c), sender, target, time);
    forall tag | tag == MSG_TYPE || IsStamped(tag) ensures GetTag(Complete(r), tag) == GetTag(r, tag)
    {
      GetTagComplete(r, tag);
    }
    StampTags(Body(c), sender, target, number, time, MSG_TYPE);
    NumberReadsBack(number);
    BodyKind(c);
  }

  // Every other tag arrives as the content has it.
  lemma HeardTag(number: nat, c: Content, sender: Bytes, target: Bytes, time: Bytes, tag: int)
    requires IsBodyTag(tag) && !IsStamped(tag)
    ensures GetTag(Heard(Numbered(number, c), sender, target, time), tag) == GetTag(Body(c), tag)
  {
    hide Complete, GetTag, Stamp, Decimal, ToInt, Body;
    GetTagComplete(Render(Numbered(number, c), sender, target, time), tag);
    StampTags(Body(c), sender, target, number, time, tag);
  }

  lemma HeardGapFill(first: int, next: nat, sender: Bytes, target: Bytes, time: Bytes)
    requires next < U32
    ensures var m := Heard(GapFillReply(first, next), sender, target, time);
      && SeqNum(m) == first % U32 && KindOf(m) == KSequenceReset && ForUs(m, target, sender)
      && GetTag(m, GAP_FILL_FLAG) == Some(YES)
      && TagInt(m, NEW_SEQ_NO).Some? && ToU32(TagInt(m, NEW_SEQ_NO).value) == next
  {
    hide Complete, Stamp, ParseInt, Decimal, ToInt;
    var r := Render(GapFillReply(first, next), sender, target, time);
    forall tag | tag == MSG_TYPE || tag == GAP_FILL_FLAG || tag == NEW_SEQ_NO || IsStamped(tag)
      ensures GetTag(Complete(r), tag) == GetTag(r, tag)
    {
      GetTagComplete(r, tag);
    }
    var body := [Field(MSG_TYPE, [52]), Field(GAP_FILL_FLAG, YES), Field(NEW_SEQ_NO, Decimal(ToInt(next))),
                 Field(MSG_SEQ_NUM, Decimal(ToInt(first)))];
    StampTags(body, sender, target, first, time, MSG_TYPE);
    StampTags(body, sender, target, first, time, GAP_FILL_FLAG);
    StampTags(body, sender, target, first, time, NEW_SEQ_NO);
    assert body[1..][0].tag == GAP_FILL_FLAG && body[1..][1..][0] == body[2];
    assert GetTag(body[1..][1..], NEW_SEQ_NO) == Some(Decimal(ToInt(next)));
    assert GetTag(body[1..], NEW_SEQ_NO) == GetTag(body, NEW_SEQ_NO) == Some(Decimal(ToInt(next)));
    NumberReadsBack(first);
    NumberReadsBack(next);
  }
}
