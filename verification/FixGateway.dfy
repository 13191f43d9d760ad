/**
 The gateway's receive path: bytes arrive in arbitrary pieces, are collected in a buffer, and every
 complete FIX message is cut out, parsed and handed to the session.
 */
module FixGateway {
  import opened Basics
  import opened FixText
  import opened FixMessage

  const LIMIT := 1024 * 1024

  datatype Drained = Drained(messages: seq<Fields>, rest: Bytes)

  // Cuts complete messages off the front of the buffer; an unparsable one is dropped.
  function Drain(buf: Bytes): Drained
    decreases |buf|
  {
    var n := ExtractLength(buf);
    if n == 0 then Drained([], buf)
    else
      var parsed := Parse(buf[..n]);
      var more := Drain(buf[n..]);
      Drained((if parsed.Some? then [parsed.value] else []) + more.messages, more.rest)
  }

  // A buffer that has grown past one mebibyte is thrown away.
  function Cut(b: Bytes): Bytes {
    if |b| > LIMIT then [] else b
  }

  class Gateway {
    var recvBuf: Bytes
    var delivered: seq<Fields>  // the messages handed to the session

    constructor ()
      ensures recvBuf == [] && delivered == []
    {
      recvBuf, delivered := [], [];
    }

    method OnTcpData(data: Bytes)
      modifies this
      ensures recvBuf == Cut(Drain(old(recvBuf) + data).rest)
      ensures delivered == old(delivered) + Drain(old(recvBuf) + data).messages
    {
      recvBuf := recvBuf + data;
      ghost var all := Drain(recvBuf);
      assert delivered + all.messages == old(delivered) + Drain(old(recvBuf) + data).messages;
      while recvBuf != []
        invariant delivered + Drain(recvBuf).messages == old(delivered) + all.messages
        invariant Drain(recvBuf).rest == all.rest
        decreases |recvBuf|
      {
        var n := ExtractLength(recvBuf);
        if n == 0 { break; }
        var parsed := ParseMessage(recvBuf[..n]);
        ghost var more := Drain(recvBuf[n..]).messages;
        if parsed.Some? {
          assert delivered + ([parsed.value] + more) == delivered + [parsed.value] + more;
          delivered := delivered + [parsed.value];
        } else {
          assert [] + more == more;
        }
        recvBuf := recvBuf[n..];
      }
      assert Drain(recvBuf) == Drained([], recvBuf);
      if |recvBuf| > LIMIT {
        recvBuf := [];
      }
    }
  }

  // ---------------------------------------------------------------- streams of messages

  // A message this gateway can receive: carriable fields and a body length that fits int.
  predicate Receivable(fs: Fields) {
    AllCarriable(fs) && |FieldsBytes(BodyFields(fs))| <= INT_MAX
  }

  predicate AllReceivable(ms: seq<Fields>) {
    forall i :: 0 <= i < |ms| ==> Receivable(ms[i])
  }

  // The messages one after the other on the wire.
  function Stream(ms: seq<Fields>): Bytes {
    if ms == [] then [] else Serialize(ms[0]) + Stream(ms[1..])
  }

  function CompleteAll(ms: seq<Fields>): (r: seq<Fields>)
    ensures |r| == |ms| && forall i :: 0 <= i < |ms| ==> r[i] == Complete(ms[i])
  {
    seq(|ms|, i requires 0 <= i < |ms| => Complete(ms[i]))
  }

  // Of the first n bytes of the stream, how many belong to a message that is not complete yet.
  function Pending(ms: seq<Fields>, n: nat): nat
    decreases |ms|
  {
    if ms == [] || n < |Serialize(ms[0])| then n else Pending(ms[1..], n - |Serialize(ms[0])|)
  }

  lemma {:induction false} StreamSplit(ms: seq<Fields>, k: nat)
    requires k <= |ms|
    ensures Stream(ms) == Stream(ms[..k]) + Stream(ms[k..])
    decreases k
  {
    hide Serialize;
    if k == 0 {
      assert ms[..0] == [] && ms[0..] == ms;
    } else {
      StreamSplit(ms[1..], k - 1);
      assert ms[..k][1..] == ms[1..][..k - 1] && ms[1..][k - 1..] == ms[k..];
    }
  }

  lemma {:induction false} PendingShift(ms: seq<Fields>, k: nat, n: nat)
    requires k <= |ms| && |Stream(ms[..k])| <= n
    ensures Pending(ms, n) == Pending(ms[k..], n - |Stream(ms[..k])|)
    decreases k
  {
    hide Serialize;
    if k == 0 {
      assert ms[..0] == [] && ms[0..] == ms;
    } else {
      var w := |Serialize(ms[0])|;
      assert ms[..k][1..] == ms[1..][..k - 1] && ms[1..][k - 1..] == ms[k..];
      PendingShift(ms[1..], k - 1, n - w);
    }
  }

  // `rest` is what is left of the stream beyond the first k messages: a proper prefix of the next one.
  ghost predicate Leftover(ms: seq<Fields>, k: nat, rest: Bytes) {
    k <= |ms| && if k == |ms| then rest == [] else rest < Serialize(ms[k])
  }

  lemma LeftoverPending(ms: seq<Fields>, k: nat, rest: Bytes)
    requires Leftover(ms, k, rest)
    ensures Pending(ms, |Stream(ms[..k])| + |rest|) == |rest|
  {
    hide Serialize, Stream;
    PendingShift(ms, k, |Stream(ms[..k])| + |rest|);
    if k < |ms| { assert ms[k..][0] == ms[k]; }
  }

  lemma SerializeNotEmpty(fs: Fields)
    ensures Serialize(fs) != []
  {
    var trailer := SerializeShape(fs);
  }

  lemma PrefixCompatible(a: Bytes, b: Bytes, w: Bytes)
    requires a <= w + b
    ensures Compatible(a, w)
    ensures |a| >= |w| ==> a[..|w|] == w && a[|w|..] <= b
    ensures |a| < |w| ==> a < w
  {
    var full := w + b;
    if |a| >= |w| {
      assert a[..|w|] == full[..|w|] == w;
      assert full[|w|..] == b;
    } else {
      assert a == full[..|a|] == w[..|a|];
    }
  }

  // A complete message at the front is delivered and cut off.
  lemma DrainOne(fs: Fields, buf: Bytes)
    requires Receivable(fs) && Serialize(fs) <= buf
    ensures var more := Drain(buf[|Serialize(fs)|..]);
      Drain(buf) == Drained([Complete(fs)] + more.messages, more.rest)
  {
    hide Serialize, Parse, ExtractLength, Complete;
    ExtractExact(fs, buf);
    SerializeNotEmpty(fs);
    ParseSerialize(fs);
    assert buf[..|Serialize(fs)|] == Serialize(fs);
  }

  // A proper prefix of a message stays.
  lemma DrainNone(fs: Fields, buf: Bytes)
    requires Receivable(fs) && buf < Serialize(fs)
    ensures Drain(buf) == Drained([], buf)
  {
    hide Serialize, Parse, ExtractLength;
    ExtractExact(fs, buf);
  }

  lemma EmptyBuffer()
    ensures Drain([]) == Drained([], [])
  {
  }

  /** Draining any prefix of a stream yields exactly the messages it completes, in order. */
  lemma {:induction false} DrainStream(ms: seq<Fields>, buf: Bytes) returns (k: nat)
    requires AllReceivable(ms) && buf <= Stream(ms)
    ensures k <= |ms| && |Stream(ms[..k])| <= |buf|
    ensures Drain(buf) == Drained(CompleteAll(ms[..k]), buf[|Stream(ms[..k])|..])
    ensures Leftover(ms, k, buf[|Stream(ms[..k])|..])
    decreases |ms|
  {
    hide Serialize, Drain, Complete, Receivable;
    k := 0;
    assert ms[..0] == [] && buf[0..] == buf;
    if ms == [] {
      EmptyBuffer();
    } else {
      var w, tail := Serialize(ms[0]), Stream(ms[1..]);
      PrefixCompatible(buf, tail, w);
      if |buf| < |w| {
        DrainNone(ms[0], buf);
      } else {
        DrainOne(ms[0], buf);
        var j := DrainStream(ms[1..], buf[|w|..]);
        k := j + 1;
        OneMore(ms, j, buf);
      }
    }
  }

  lemma OneMore(ms: seq<Fields>, j: nat, buf: Bytes)
    requires ms != [] && j < |ms| && |Serialize(ms[0])| + |Stream(ms[1..][..j])| <= |buf|
    ensures |Stream(ms[..j + 1])| == |Serialize(ms[0])| + |Stream(ms[1..][..j])|
    ensures CompleteAll(ms[..j + 1]) == [Complete(ms[0])] + CompleteAll(ms[1..][..j])
    ensures buf[|Stream(ms[..j + 1])|..] == buf[|Serialize(ms[0])|..][|Stream(ms[1..][..j])|..]
  {
    hide Serialize, Complete;
    assert ms[..j + 1][1..] == ms[1..][..j] && ms[..j + 1] == [ms[0]] + ms[1..][..j];
  }

  // ---------------------------------------------------------------- any number of reads

  datatype State = State(buf: Bytes, delivered: seq<Fields>)

  function Read(s: State, data: Bytes): State {
    var d := Drain(s.buf + data);
    State(Cut(d.rest), s.delivered + d.messages)
  }

  function ReadAll(chunks: seq<Bytes>): State {
    if chunks == [] then State([], []) else Read(ReadAll(chunks[..|chunks| - 1]), chunks[|chunks| - 1])
  }

  function Received(chunks: seq<Bytes>): Bytes {
    if chunks == [] then [] else Received(chunks[..|chunks| - 1]) + chunks[|chunks| - 1]
  }

  // After `received` bytes of the stream, exactly its first k messages are out and the rest is buffered.
  ghost predicate At(ms: seq<Fields>, received: Bytes, s: State, k: nat) {
    && k <= |ms| && |Stream(ms[..k])| <= |received|
    && s.delivered == CompleteAll(ms[..k]) && s.buf == received[|Stream(ms[..k])|..]
    && Leftover(ms, k, s.buf)
  }

  ghost predicate InStep(ms: seq<Fields>, received: Bytes, s: State) {
    exists k :: At(ms, received, s, k)
  }

  lemma AtStart(ms: seq<Fields>)
    ensures At(ms, [], State([], []), 0)
  {
    hide Serialize;
    assert ms[..0] == [];
    if ms != [] { SerializeNotEmpty(ms[0]); }
  }

  // One read from any state in step: what is complete is delivered, the rest is buffered up to the limit.
  lemma ReadStep(ms: seq<Fields>, received: Bytes, data: Bytes, s: State, i: nat) returns (k: nat)
    requires AllReceivable(ms) && At(ms, received, s, i) && received + data <= Stream(ms)
    ensures k <= |ms| && |Stream(ms[..k])| <= |received + data|
    ensures var rest := (received + data)[|Stream(ms[..k])|..];
      && Read(s, data) == State(Cut(rest), CompleteAll(ms[..k]))
      && Leftover(ms, k, rest) && |rest| == Pending(ms, |received + data|)
  {
    hide Drain, Leftover, CompleteAll, Stream, AllReceivable, Cut, Pending;
    var off, all, buf := |Stream(ms[..i])|, received + data, s.buf + data;
    StreamSplit(ms, i);
    assert buf == all[off..] && all[off..] <= Stream(ms)[off..];
    assert Stream(ms)[off..] == Stream(ms[i..]);
    assert AllReceivable(ms[i..]) by { DropReceivable(ms, i); }
    var j := DrainStream(ms[i..], buf);
    k := i + j;
    Advance(ms, i, j);
    var rest := buf[|Stream(ms[i..][..j])|..];
    assert rest == all[|Stream(ms[..k])|..];
    LeftoverShift(ms, i, j, rest);
    LeftoverPending(ms, k, rest);
  }

  lemma DropReceivable(ms: seq<Fields>, i: nat)
    requires AllReceivable(ms) && i <= |ms|
    ensures AllReceivable(ms[i..])
  {
    hide Receivable;
  }

  lemma LeftoverShift(ms: seq<Fields>, i: nat, j: nat, rest: Bytes)
    requires i + j <= |ms| && Leftover(ms[i..], j, rest)
    ensures Leftover(ms, i + j, rest)
  {
    hide Serialize;
  }

  lemma Advance(ms: seq<Fields>, i: nat, j: nat)
    requires i + j <= |ms|
    ensures Stream(ms[..i + j]) == Stream(ms[..i]) + Stream(ms[i..][..j])
    ensures CompleteAll(ms[..i + j]) == CompleteAll(ms[..i]) + CompleteAll(ms[i..][..j])
  {
    hide Stream, Complete;
    StreamSplit(ms[..i + j], i);
    assert ms[..i + j][..i] == ms[..i] && ms[..i + j][i..] == ms[i..][..j];
  }

  /**
   The buffer limit, exactly: from any state in step and for any next read, the gateway stays in step if and only
   if no more than one mebibyte of an incomplete message is left over.
   */
  lemma CutOffExact(ms: seq<Fields>, received: Bytes, data: Bytes, s: State)
    requires AllReceivable(ms) && InStep(ms, received, s) && received + data <= Stream(ms)
    ensures InStep(ms, received + data, Read(s, data)) <==> Pending(ms, |received + data|) <= 1024 * 1024
  {
    hide Read, Stream, Leftover, CompleteAll, AllReceivable, Pending;
    var i :| At(ms, received, s, i);
    var k := ReadStep(ms, received, data, s, i);
    var all := received + data;
    var rest := all[|Stream(ms[..k])|..];
    if |rest| <= LIMIT {
      assert At(ms, all, Read(s, data), k);
    }
  }

  // No read leaves more than the limit behind.
  predicate NeverOver(ms: seq<Fields>, chunks: seq<Bytes>) {
    && Pending(ms, |Received(chunks)|) <= LIMIT
    && (chunks == [] || NeverOver(ms, chunks[..|chunks| - 1]))
  }

  // After every read, exactly the completed messages are out and the rest is buffered.
  ghost predicate AlwaysInStep(ms: seq<Fields>, chunks: seq<Bytes>) {
    && InStep(ms, Received(chunks), ReadAll(chunks))
    && (chunks == [] || AlwaysInStep(ms, chunks[..|chunks| - 1]))
  }

  /**
   Stream reassembly: however the bytes of a message stream are split into reads, after every one of them exactly
   the messages completed so far have been delivered, in order, and the buffer holds a proper prefix of the next
   one -- if and only if no read leaves more than one mebibyte behind.
   */
  lemma {:induction false} Reassembly(ms: seq<Fields>, chunks: seq<Bytes>)
    requires AllReceivable(ms) && Received(chunks) <= Stream(ms)
    ensures AlwaysInStep(ms, chunks) <==> NeverOver(ms, chunks)
    decreases |chunks|
  {
    hide Read, Stream, InStep, AllReceivable, Pending;
    if chunks == [] {
      AtStart(ms);
      InStepAt(ms, [], State([], []), 0);
      NothingPending(ms);
    } else {
      var n := |chunks| - 1;
      var front := chunks[..n];
      assert Received(front) <= Received(front) + chunks[n];
      Reassembly(ms, front);
      if AlwaysInStep(ms, front) { CutOffExact(ms, Received(front), chunks[n], ReadAll(front)); }
    }
  }

  lemma InStepAt(ms: seq<Fields>, received: Bytes, s: State, k: nat)
    requires At(ms, received, s, k)
    ensures InStep(ms, received, s)
  {
  }

  lemma NothingPending(ms: seq<Fields>)
    ensures Pending(ms, 0) == 0
  {
    hide Serialize;
    if ms != [] { SerializeNotEmpty(ms[0]); }
  }

  // Messages of at most one mebibyte and a byte never leave too much behind.
  lemma {:induction false} ShortMessagesFit(ms: seq<Fields>, n: nat)
    requires n <= |Stream(ms)| && forall i :: 0 <= i < |ms| ==> |Serialize(ms[i])| <= LIMIT + 1
    ensures Pending(ms, n) <= LIMIT
    decreases |ms|
  {
    hide Serialize;
    if ms != [] && n >= |Serialize(ms[0])| { ShortMessagesFit(ms[1..], n - |Serialize(ms[0])|); }
  }

  /**
   Once the whole stream has arrived and nothing was cut, every message has been delivered whole and valid, and
   nothing is left over.
   */
  lemma WholeStream(ms: seq<Fields>, chunks: seq<Bytes>)
    requires AllReceivable(ms) && Received(chunks) == Stream(ms) && NeverOver(ms, chunks)
    ensures ReadAll(chunks) == State([], CompleteAll(ms))
    ensures forall i :: 0 <= i < |ms| ==> ValidCheckSum(CompleteAll(ms)[i]) && ValidBodyLength(CompleteAll(ms)[i])
  {
    hide ReadAll, Stream, Complete, ValidCheckSum, ValidBodyLength, Leftover, NeverOver, Receivable, InStep;
    Reassembly(ms, chunks);
    Everything(ms, ReadAll(chunks));
    forall i | 0 <= i < |ms| ensures ValidCheckSum(Complete(ms[i])) && ValidBodyLength(Complete(ms[i]))
    {
      ReceivedValid(ms[i]);
    }
  }

  lemma ReceivedValid(fs: Fields)
    requires Receivable(fs)
    ensures ValidCheckSum(Complete(fs)) && ValidBodyLength(Complete(fs))
  {
    hide ValidCheckSum, ValidBodyLength, Complete, FieldsBytes;
    CompleteIsValid(fs);
  }

  // In step with the whole stream means that everything is out.
  lemma Everything(ms: seq<Fields>, s: State)
    requires InStep(ms, Stream(ms), s)
    ensures s == State([], CompleteAll(ms))
  {
    hide Stream, CompleteAll, Leftover;
    var k :| At(ms, Stream(ms), s, k);
    StreamSplit(ms, k);
    AllOut(ms, k, s.buf);
    assert ms[..|ms|] == ms;
  }

  lemma AllOut(ms: seq<Fields>, k: nat, rest: Bytes)
    requires Leftover(ms, k, rest) && rest == Stream(ms[k..])
    ensures k == |ms| && rest == []
  {
    hide Serialize;
  }

  // A message that trips the limit: all but its last byte arrives in one read, and it is never delivered.
  lemma OversizedLost() returns (fs: Fields, chunks: seq<Bytes>)
    ensures AllReceivable([fs]) && Received(chunks) == Stream([fs]) && !NeverOver([fs], chunks)
    ensures ReadAll(chunks).delivered == []
  {
    fs := [Field(58, seq(LIMIT, _ => 65))];
    var w := Serialize(fs);
    BigMessage(fs);
    chunks := [w[..|w| - 1], w[|w| - 1..]];
    TwoReads(fs, chunks, w);
  }

  lemma BigMessage(fs: Fields)
    requires fs == [Field(58, seq(LIMIT, _ => 65))]
    ensures Receivable(fs) && |Serialize(fs)| > LIMIT + 1 && Serialize(fs)[|Serialize(fs)| - 1] == SOH
  {
    var body := FieldsBytes(BodyFields(fs));
    assert fs[..0] == [] && BodyFields(fs[..0]) == [];
    assert BodyFields(fs) == [] + [fs[0]] == fs;
    FieldsBytesAppend([], fs[0]);
    assert [] + [fs[0]] == fs;
    assert Digits(5) == [53] && Digits(58) == Digits(5) + [56];
    assert body == [53, 56, EQUALS] + fs[0].value + [SOH];
    hide FieldsBytes, Digits;
    var trailer := SerializeShape(fs);
    var before := BeforeCheckSum(fs);
    assert Serialize(fs) == before + FieldBytes(Field(CHECK_SUM, CheckSum(before)));
  }

  lemma TwoReads(fs: Fields, chunks: seq<Bytes>, w: Bytes)
    requires Receivable(fs) && w == Serialize(fs) && |w| > LIMIT + 1 && w[|w| - 1] == SOH
    requires chunks == [w[..|w| - 1], w[|w| - 1..]]
    ensures Received(chunks) == Stream([fs]) && !NeverOver([fs], chunks) && ReadAll(chunks) == State([SOH], [])
  {
    hide Serialize;
    var b, last := w[..|w| - 1], w[|w| - 1..];
    var one: seq<Bytes> := [b];
    assert chunks[..1] == one && one[..0] == [] && b + last == w && last == [SOH];
    assert [fs][1..] == [] && Stream([fs]) == w + [];
    assert Received(one) == [] + b == b;
    assert Pending([fs], |b|) == |b|;
    DrainNone(fs, b);
    assert [] + b == b;
    assert ReadAll(one) == Read(State([], []), b) == State([], []);
    assert [] + last == last && Drain(last) == Drained([], last);
  }

  // ---------------------------------------------------------------- after a cut

  function ReadFrom(s: State, chunks: seq<Bytes>): State {
    if chunks == [] then s else Read(ReadFrom(s, chunks[..|chunks| - 1]), chunks[|chunks| - 1])
  }

  /** A gateway that has just cut goes on exactly as a new one would on the bytes that follow. */
  lemma {:induction false} AfterCut(delivered: seq<Fields>, chunks: seq<Bytes>)
    ensures ReadFrom(State([], delivered), chunks) ==
            State(ReadAll(chunks).buf, delivered + ReadAll(chunks).delivered)
  {
    hide Drain, Cut;
    if chunks == [] {
      assert delivered + [] == delivered;
    } else {
      var n := |chunks| - 1;
      AfterCut(delivered, chunks[..n]);
      var s := ReadAll(chunks[..n]);
      var d := Drain(s.buf + chunks[n]);
      assert delivered + s.delivered + d.messages == delivered + (s.delivered + d.messages);
    }
  }

  // The bytes cannot be the beginning of a message.
  predicate Misplaced(b: Bytes) {
    !Compatible(b, [56, EQUALS])
  }

  lemma MisplacedDrains(b: Bytes, more: Bytes)
    requires Misplaced(b)
    ensures Misplaced(b + more) && Drain(b + more) == Drained([], b + more)
  {
    var all := b + more;
    hide FindTagNine, Find, ParseInt;
    if |all| >= 2 { assert all[..2] != [56, EQUALS]; }
  }

  /**
   Bytes that begin in the middle of a message, in any number of reads: up to one mebibyte they are kept and nothing
   is delivered; the read that passes the limit throws all of them away, and the gateway is as new.
   */
  lemma {:induction false} MisplacedSilent(chunks: seq<Bytes>, data: Bytes)
    requires chunks != [] && Misplaced(chunks[0]) && |Received(chunks)| <= LIMIT
    ensures ReadAll(chunks) == State(Received(chunks), []) && Misplaced(Received(chunks))
    ensures ReadAll(chunks + [data]) == State(Cut(Received(chunks + [data])), [])
    decreases |chunks|
  {
    hide Read, Misplaced, Received, ReadAll;
    var n := |chunks| - 1;
    var front, last := chunks[..n], chunks[n];
    assert chunks == front + [last];
    OneMoreRead(front, last);
    if n == 0 {
      NothingRead();
      assert [] + last == last;
      MisplacedRead([], last);
    } else {
      assert front[0] == chunks[0];
      MisplacedSilent(front, last);
      MisplacedRead(Received(front), last);
    }
    OneMoreRead(chunks, data);
    MisplacedRead(Received(chunks), data);
  }

  lemma NothingRead()
    ensures ReadAll([]) == State([], []) && Received([]) == []
  {
  }

  lemma OneMoreRead(chunks: seq<Bytes>, data: Bytes)
    ensures ReadAll(chunks + [data]) == Read(ReadAll(chunks), data)
    ensures Received(chunks + [data]) == Received(chunks) + data
  {
    hide Read;
    assert (chunks + [data])[..|chunks|] == chunks;
  }

  // One read of bytes that cannot begin a message.
  lemma MisplacedRead(b: Bytes, data: Bytes)
    requires Misplaced(b) || (b == [] && Misplaced(data))
    ensures Read(State(b, []), data) == State(Cut(b + data), []) && Misplaced(b + data)
  {
    hide Misplaced, Drain;
    if Misplaced(b) {
      MisplacedDrains(b, data);
    } else {
      assert b + data == data && data + [] == data;
      MisplacedDrains(data, []);
    }
  }

  /**
   Delivery resumes in step when a read begins at a message boundary: from there on the later messages arrive as
   they would on a new connection, under the same condition.
   */
  lemma ResumesAtBoundary(delivered: seq<Fields>, ms: seq<Fields>, chunks: seq<Bytes>)
    requires AllReceivable(ms) && Received(chunks) == Stream(ms) && NeverOver(ms, chunks)
    ensures ReadFrom(State([], delivered), chunks) == State([], delivered + CompleteAll(ms))
  {
    hide ReadFrom, ReadAll, Received, Stream, NeverOver, AllReceivable, CompleteAll;
    AfterCut(delivered, chunks);
    WholeStream(ms, chunks);
  }

  // A cut in the middle of a value: the rest of the message and the whole next one go by undelivered.
  lemma CutTakesTheNext(rest: Bytes, fs: Fields, delivered: seq<Fields>)
    requires Misplaced(rest) && |rest + Serialize(fs)| <= LIMIT
    ensures ReadFrom(State([], delivered), [rest, Serialize(fs)]) == State(rest + Serialize(fs), delivered)
  {
    hide Serialize, Misplaced, ReadFrom, ReadAll;
    var chunks, one := [rest, Serialize(fs)], [rest];
    OneRead(rest);
    MisplacedSilent(one, Serialize(fs));
    TwoChunks(rest, Serialize(fs));
    assert one + [Serialize(fs)] == chunks;
    AfterCut(delivered, chunks);
    assert delivered + [] == delivered;
  }

  lemma OneRead(a: Bytes)
    ensures Received([a]) == a
  {
    var one: seq<Bytes> := [a];
    assert one[..0] == [] && [] + a == a;
  }

  lemma TwoChunks(a: Bytes, b: Bytes)
    ensures Received([a] + [b]) == a + b
  {
    OneRead(a);
    assert ([a] + [b])[..1] == [a];
  }
}
