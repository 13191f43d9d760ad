/** Batching of encoded messages into UDP datagrams, and what a receiver gets back out of them. */
module Batcher {
  import opened Basics
  import opened Market
  import opened Wire

  const MAX_DATAGRAM := 1400
  const BATCH_HEADER := 12

  // ---------------------------------------------------------------- datagrams

  function BatchFields(seqNum: nat, count: nat, total: nat): seq<Field> {
    [Field(seqNum, 8), Field(count, 2), Field(total, 2)]
  }

  function BatchHeader(seqNum: nat, count: nat, total: nat): seq<byte> {
    Pack(BatchFields(seqNum, count, total))
  }

  // The datagram that carries these messages as the seqNum-th batch.
  function Datagram(seqNum: nat, ms: seq<seq<byte>>): seq<byte> {
    BatchHeader(seqNum % U64, |ms| % 0x1_0000, (BATCH_HEADER + |Flatten(ms)|) % 0x1_0000) + Flatten(ms)
  }

  datatype Batch = Batch(seqNum: nat, count: nat, total: nat, messages: seq<seq<byte>>)

  lemma BatchTotal()
    ensures Total([8, 2, 2]) == BATCH_HEADER
  {
    assert Total([2]) == 2 && Total([2, 2]) == 4;
  }

  // Parsing a received datagram; an empty one is accepted as an empty batch, a short one refused.
  function ParseDatagram(d: seq<byte>): Option<Batch> {
    if d == [] then Some(Batch(0, 0, 0, []))
    else if |d| < BATCH_HEADER then None
    else
      BatchTotal();
      var v := Unpack(d, [8, 2, 2]);
      Some(Batch(v[0], v[1], v[2], Walk(d[BATCH_HEADER..])))
  }

  // A datagram is right: within the limit, numbered, counted, and parsed back to what was put in.
  ghost predicate Carries(d: seq<byte>, seqNum: nat, ms: seq<seq<byte>>, maxSize: nat) {
    |d| <= maxSize && ParseDatagram(d) == Some(Batch(seqNum % U64, |ms|, |d|, ms))
  }

  lemma BatchHeaderSize(seqNum: nat, count: nat, total: nat)
    ensures |BatchHeader(seqNum, count, total)| == BATCH_HEADER
  {
    BatchTotal();
    PackSize(BatchFields(seqNum, count, total));
    assert Widths(BatchFields(seqNum, count, total)) == [8, 2, 2];
  }

  lemma {:induction false} FlattenSize(ms: seq<seq<byte>>)
    requires forall i :: 0 <= i < |ms| ==> ms[i] != []
    ensures |ms| <= |Flatten(ms)|
  {
    if ms != [] { FlattenSize(ms[..|ms| - 1]); }
  }

  lemma DatagramCarries(seqNum: nat, ms: seq<seq<byte>>, maxSize: nat)
    requires AllFramed(ms) && BATCH_HEADER + |Flatten(ms)| <= maxSize <= MAX_DATAGRAM
    ensures Carries(Datagram(seqNum, ms), seqNum, ms, maxSize)
  {
    hide Pack, Unpack, Walk, Flatten, Total;
    var total := BATCH_HEADER + |Flatten(ms)|;
    var fields := BatchFields(seqNum % U64, |ms| % 0x1_0000, total % 0x1_0000);
    FlattenSize(ms);
    Powers();
    BatchTotal();
    BatchHeaderSize(seqNum % U64, |ms| % 0x1_0000, total % 0x1_0000);
    assert Widths(fields) == [8, 2, 2];
    UnpackPack(fields, Flatten(ms));
    assert Datagram(seqNum, ms)[BATCH_HEADER..] == Flatten(ms);
    WalkFlatten(ms);
  }

  /** The batch header, byte by byte: number in bytes 0 to 7, message count in 8 and 9, total length in 10 and 11. */
  lemma DatagramLayout(seqNum: nat, ms: seq<seq<byte>>)
    ensures var d := Datagram(seqNum, ms);
      && |d| == 12 + |Flatten(ms)| && d[12..] == Flatten(ms)
      && ValueAt(d, 0, 8) == seqNum % U64 && ValueAt(d, 8, 10) == |ms| % 0x1_0000
      && ValueAt(d, 10, 12) == |d| % 0x1_0000
  {
    hide Decode, Encode, Flatten;
    Powers();
    SmallTotals();
    assert Total([8, 2]) == 10 by { assert Total([2]) == 2; }
    var total := BATCH_HEADER + |Flatten(ms)|;
    var fields := BatchFields(seqNum % U64, |ms| % 0x1_0000, total % 0x1_0000);
    BatchHeaderSize(seqNum % U64, |ms| % 0x1_0000, total % 0x1_0000);
    assert Widths(fields[..0]) == [] && Widths(fields[..1]) == [8] && Widths(fields[..2]) == [8, 2];
    PackedAt(fields, 0, Flatten(ms));
    PackedAt(fields, 1, Flatten(ms));
    PackedAt(fields, 2, Flatten(ms));
  }

  // Nothing at all is an empty batch, less than a header is refused, and everything else is read.
  lemma ShortDatagrams(d: seq<byte>)
    ensures ParseDatagram(d) == None <==> 0 < |d| < 12
    ensures d == [] ==> ParseDatagram(d) == Some(Batch(0, 0, 0, []))
  {
  }

  // ---------------------------------------------------------------- the batcher object

  // The bytes behind the header are the messages, one more after a copy to the write position.
  lemma Appended(before: seq<byte>, after: seq<byte>, position: nat, msg: seq<byte>, pending: seq<seq<byte>>)
    requires |before| == |after| && BATCH_HEADER <= position && position + |msg| <= |after|
    requires before[BATCH_HEADER..position] == Flatten(pending)
    requires forall i :: 0 <= i < position ==> after[i] == before[i]
    requires forall i :: 0 <= i < |msg| ==> after[position + i] == msg[i]
    ensures after[BATCH_HEADER..position + |msg|] == Flatten(pending + [msg])
    ensures |Flatten(pending + [msg])| == |Flatten(pending)| + |msg|
  {
    hide Flatten;
    FlattenAppend(pending, msg);
    assert after[BATCH_HEADER..position] == before[BATCH_HEADER..position];
    assert after[position..position + |msg|] == msg;
    assert after[BATCH_HEADER..position + |msg|] ==
           after[BATCH_HEADER..position] + after[position..position + |msg|];
  }

  class Batching {
    const maxSize: nat
    const buffer: array<byte>
    var writePos: nat
    var msgCount: nat
    var seqNum: nat
    var sent: seq<seq<byte>>           // what the callback has received
    ghost var pending: seq<seq<byte>>  // the messages in the current batch
    ghost var batches: seq<seq<seq<byte>>>  // the messages of each datagram sent

    ghost predicate Valid()
      reads this, buffer
    {
      && maxSize <= MAX_DATAGRAM == buffer.Length
      && (forall i :: 0 <= i < |pending| ==> pending[i] != [])
      && writePos == BATCH_HEADER + |Flatten(pending)| && (pending != [] ==> writePos <= maxSize)
      && writePos <= MAX_DATAGRAM && buffer[BATCH_HEADER..writePos] == Flatten(pending)
      && msgCount == |pending| && seqNum == |sent| % U64 && |batches| == |sent|
      && (forall i :: 0 <= i < |sent| ==> sent[i] == Datagram(i, batches[i]))
      && (forall i :: 0 <= i < |sent| ==> batches[i] != [] && BATCH_HEADER + |Flatten(batches[i])| <= maxSize)
    }

    constructor (maxDatagramSize: nat)
      requires maxDatagramSize <= MAX_DATAGRAM
      ensures Valid() && maxSize == maxDatagramSize && sent == [] && pending == [] && fresh(buffer)
    {
      maxSize, buffer := maxDatagramSize, new byte[MAX_DATAGRAM](_ => 0);
      writePos, msgCount, seqNum := BATCH_HEADER, 0, 0;
      sent, pending, batches := [], [], [];
    }

    method Append(msg: seq<byte>)
      requires Valid() && msg != [] && writePos + |msg| <= maxSize
      modifies this`writePos, this`msgCount, this`pending, buffer
      ensures Valid() && pending == old(pending) + [msg]
    {
      hide Flatten, Datagram;
      ghost var before, position := buffer[..], writePos;
      forall i | 0 <= i < |msg| { buffer[writePos + i] := msg[i]; }
      Appended(before, buffer[..], position, msg, pending);
      pending := pending + [msg];
      writePos := writePos + |msg|;
      msgCount := (msgCount + 1) % 0x1_0000;
      FlattenSize(pending);
      assert buffer[BATCH_HEADER..writePos] == buffer[..][BATCH_HEADER..writePos];
    }

    // Refuses a message that does not fit the current batch.
    method Add(msg: seq<byte>) returns (ok: bool)
      requires Valid()
      modifies this`writePos, this`msgCount, this`pending, buffer
      ensures Valid() && ok == (msg != [] && BATCH_HEADER + |Flatten(old(pending))| + |msg| <= maxSize)
      ensures pending == if ok then old(pending) + [msg] else old(pending)
    {
      if msg == [] { return false; }
      if writePos + |msg| > maxSize { return false; }
      if BATCH_HEADER + |msg| > maxSize { return false; }
      Append(msg);
      return true;
    }

    method WriteHeader()
      requires Valid()
      modifies this`seqNum, buffer
      ensures seqNum == (|sent| + 1) % U64 && buffer[..writePos] == Datagram(|sent|, pending)
    {
      hide Pack, Encode, BatchHeader, Flatten;
      var header := BatchHeader(seqNum, msgCount, writePos % 0x1_0000);
      BatchHeaderSize(seqNum, msgCount, writePos % 0x1_0000);
      FlattenSize(pending);
      assert msgCount == |pending| % 0x1_0000;
      seqNum := (seqNum + 1) % U64;
      forall i | 0 <= i < BATCH_HEADER { buffer[i] := header[i]; }
      assert buffer[..BATCH_HEADER] == header;
      assert buffer[BATCH_HEADER..writePos] == old(buffer[BATCH_HEADER..writePos]);
      assert buffer[..writePos] == buffer[..BATCH_HEADER] + buffer[BATCH_HEADER..writePos];
    }

    method Flush()
      requires Valid()
      modifies this, buffer
      ensures Valid() && pending == []
      ensures if old(pending) == [] then sent == old(sent) && batches == old(batches)
              else sent == old(sent) + [Datagram(|old(sent)|, old(pending))] && batches == old(batches) + [old(pending)]
    {
      if msgCount == 0 { return; }
      WriteHeader();
      sent := sent + [buffer[..writePos]];
      batches := batches + [pending];
      writePos, msgCount, pending := BATCH_HEADER, 0, [];
    }

    // Sends the current batch first when the message would overflow it.
    method AddAndFlush(msg: seq<byte>) returns (ok: bool)
      requires Valid()
      modifies this, buffer
      ensures Valid() && ok == (msg != [] && BATCH_HEADER + |msg| <= maxSize)
      ensures !ok ==> sent == old(sent) && pending == old(pending) && batches == old(batches)
      ensures ok ==> if BATCH_HEADER + |Flatten(old(pending))| + |msg| <= maxSize
                     then sent == old(sent) && batches == old(batches) && pending == old(pending) + [msg]
                     else
                       && sent == old(sent) + [Datagram(|old(sent)|, old(pending))]
                       && batches == old(batches) + [old(pending)] && pending == [msg]
    {
      if msg == [] { return false; }
      if BATCH_HEADER + |msg| > maxSize { return false; }
      if writePos + |msg| > maxSize {
        Flush();
      }
      Append(msg);
      return true;
    }
  }

  // ---------------------------------------------------------------- sender to receiver

  // All messages found in a list of datagrams, in order.
  function Delivered(ds: seq<seq<byte>>): seq<seq<byte>> {
    if ds == [] then []
    else
      var b := ParseDatagram(ds[|ds| - 1]);
      Delivered(ds[..|ds| - 1]) + if b.Some? then b.value.messages else []
  }

  // Views that pass validation, decoded; the others are dropped.
  function DecodeAll(views: seq<seq<byte>>): seq<Stamped> {
    if views == [] then []
    else
      var v := views[|views| - 1];
      DecodeAll(views[..|views| - 1]) + if Validate(v) == None then [DecodeMessage(v)] else []
  }

  function Receive(ds: seq<seq<byte>>): seq<Stamped> {
    DecodeAll(Delivered(ds))
  }

  function Concat(bs: seq<seq<seq<byte>>>): seq<seq<byte>> {
    if bs == [] then [] else Concat(bs[..|bs| - 1]) + bs[|bs| - 1]
  }

  function WireAll(ms: seq<Stamped>): seq<seq<byte>> {
    if ms == [] then [] else WireAll(ms[..|ms| - 1]) + [WireBytes(ms[|ms| - 1])]
  }

  // The messages that can travel at all under a datagram limit.
  function Deliverable(ms: seq<Stamped>, maxSize: nat): seq<Stamped> {
    if ms == [] then []
    else
      var m := ms[|ms| - 1];
      Deliverable(ms[..|ms| - 1], maxSize) + if BATCH_HEADER + WireSize(m.message) <= maxSize then [m] else []
  }

  lemma {:induction false} DeliverableAll(ms: seq<Stamped>, maxSize: nat)
    requires maxSize >= BATCH_HEADER + 43
    ensures Deliverable(ms, maxSize) == ms
  {
    if ms != [] { DeliverableAll(ms[..|ms| - 1], maxSize); }
  }

  lemma {:induction false} DeliverableFits(ms: seq<Stamped>, maxSize: nat)
    requires forall i :: 0 <= i < |ms| ==> StampedFits(ms[i])
    ensures forall i :: 0 <= i < |Deliverable(ms, maxSize)| ==> StampedFits(Deliverable(ms, maxSize)[i])
  {
    if ms != [] { DeliverableFits(ms[..|ms| - 1], maxSize); }
  }

  lemma WireAllProperties(ms: seq<Stamped>)
    requires forall i :: 0 <= i < |ms| ==> StampedFits(ms[i])
    ensures AllFramed(WireAll(ms)) && DecodeAll(WireAll(ms)) == ms
  {
    WireAllFramed(ms);
    WireAllDecoded(ms);
  }

  lemma {:induction false} WireAllFramed(ms: seq<Stamped>)
    requires forall i :: 0 <= i < |ms| ==> StampedFits(ms[i])
    ensures AllFramed(WireAll(ms))
  {
    hide WireBytes, StampedFits, Framed;
    if ms != [] {
      WireAllFramed(ms[..|ms| - 1]);
      WireFramed(ms[|ms| - 1]);
    }
  }

  lemma {:induction false} WireAllDecoded(ms: seq<Stamped>)
    requires forall i :: 0 <= i < |ms| ==> StampedFits(ms[i])
    ensures DecodeAll(WireAll(ms)) == ms
  {
    hide WireBytes, DecodeAll, StampedFits;
    if ms == [] {
      NoViews();
    } else {
      var front, m := ms[..|ms| - 1], ms[|ms| - 1];
      WireAllDecoded(front);
      MessageRoundTrip(m);
      DecodeOneMore(WireAll(front), WireBytes(m));
      assert ms == front + [m];
    }
  }

  lemma NoViews()
    ensures DecodeAll([]) == []
  {
  }

  lemma DecodeOneMore(views: seq<seq<byte>>, v: seq<byte>)
    ensures DecodeAll(views + [v]) ==
            DecodeAll(views) + if Validate(v) == None then [DecodeMessage(v)] else []
  {
    hide Validate, DecodeMessage;
    assert (views + [v])[..|views|] == views;
  }

  lemma FramedParts(a: seq<seq<byte>>, b: seq<seq<byte>>)
    requires AllFramed(a + b)
    ensures AllFramed(a) && AllFramed(b)
  {
    forall i | 0 <= i < |a| ensures Framed(a[i]) { assert (a + b)[i] == a[i]; }
    forall i | 0 <= i < |b| ensures Framed(b[i]) { assert (a + b)[|a| + i] == b[i]; }
  }

  lemma {:induction false} DeliveredIsSent(ds: seq<seq<byte>>, batches: seq<seq<seq<byte>>>, maxSize: nat)
    requires |ds| == |batches| && maxSize <= MAX_DATAGRAM && AllFramed(Concat(batches))
    requires forall i :: 0 <= i < |ds| ==> ds[i] == Datagram(i, batches[i])
    requires forall i :: 0 <= i < |ds| ==> BATCH_HEADER + |Flatten(batches[i])| <= maxSize
    ensures Delivered(ds) == Concat(batches)
    ensures forall i :: 0 <= i < |ds| ==> Carries(ds[i], i, batches[i], maxSize)
  {
    hide Carries, AllFramed, Datagram, ParseDatagram, Flatten;
    if ds != [] {
      var n := |ds| - 1;
      FramedParts(Concat(batches[..n]), batches[n]);
      DeliveredIsSent(ds[..n], batches[..n], maxSize);
      DatagramCarries(n, batches[n], maxSize);
      CarriesParses(ds[n], n, batches[n], maxSize);
      forall i | 0 <= i < |ds| ensures Carries(ds[i], i, batches[i], maxSize)
      {
        if i < n { assert ds[..n][i] == ds[i] && batches[..n][i] == batches[i]; }
      }
    }
  }

  lemma CarriesParses(d: seq<byte>, seqNum: nat, ms: seq<seq<byte>>, maxSize: nat)
    requires Carries(d, seqNum, ms, maxSize)
    ensures ParseDatagram(d).Some? && ParseDatagram(d).value.messages == ms
  {
  }

  /**
   The whole binary path: encode, batch, send, parse, validate, decode.  The receiver gets exactly the
   messages that fit the datagram limit, in order; every datagram is within the limit, carries the count it
   claims, and the datagrams are numbered 0, 1, 2, ...
   */
  method SendAll(b: Batching, ms: seq<Stamped>)
    requires b.Valid() && b.sent == [] && b.pending == []
    requires forall i :: 0 <= i < |ms| ==> StampedFits(ms[i])
    modifies b, b.buffer
    ensures b.Valid() && b.pending == []
    ensures Receive(b.sent) == Deliverable(ms, b.maxSize)
    ensures b.maxSize >= BATCH_HEADER + 43 ==> Receive(b.sent) == ms
    ensures forall i :: 0 <= i < |b.sent| ==> Carries(b.sent[i], i, b.batches[i], b.maxSize)
  {
    hide Concat, WireAll, Deliverable, Receive, Carries, Datagram, WireBytes;
    Nothing(b.maxSize);
    var scratch := new byte[64](_ => 0);
    for k := 0 to |ms|
      invariant b.Valid()
      invariant Concat(b.batches) + b.pending == WireAll(Deliverable(ms[..k], b.maxSize))
    {
      DeliverableNext(ms, k, b.maxSize);
      ghost var batches, pending := b.batches, b.pending;
      MessageRoundTrip(ms[k]);
      var n := EncodeInto(ms[k], scratch);
      var ok := b.AddAndFlush(scratch[..n]);
      if ok { Accepted(batches, pending, b.batches, b.pending, Deliverable(ms[..k], b.maxSize), ms[k]); }
    }
    assert ms[..|ms|] == ms;
    ghost var batches, pending := b.batches, b.pending;
    b.Flush();
    Flushed(batches, pending, b.batches);
    DeliverableFits(ms, b.maxSize);
    WireAllProperties(Deliverable(ms, b.maxSize));
    DeliveredIsSent(b.sent, b.batches, b.maxSize);
    assert Receive(b.sent) == DecodeAll(Delivered(b.sent)) by { ReceiveDecodes(b.sent); }
    if b.maxSize >= BATCH_HEADER + 43 { DeliverableAll(ms, b.maxSize); }
  }

  lemma Nothing(maxSize: nat)
    ensures Concat([]) + [] == WireAll(Deliverable([], maxSize))
  {
  }

  lemma ReceiveDecodes(ds: seq<seq<byte>>)
    ensures Receive(ds) == DecodeAll(Delivered(ds))
  {
  }

  lemma DeliverableNext(ms: seq<Stamped>, k: nat, maxSize: nat)
    requires k < |ms|
    ensures Deliverable(ms[..k + 1], maxSize) ==
            if BATCH_HEADER + WireSize(ms[k].message) <= maxSize then Deliverable(ms[..k], maxSize) + [ms[k]]
            else Deliverable(ms[..k], maxSize)
  {
    assert ms[..k + 1][..k] == ms[..k];
  }

  lemma Flushed(batches: seq<seq<seq<byte>>>, pending: seq<seq<byte>>, batches': seq<seq<seq<byte>>>)
    requires batches' == if pending == [] then batches else batches + [pending]
    ensures Concat(batches') == Concat(batches) + pending
  {
    if pending != [] { assert batches'[..|batches|] == batches; }
  }

  lemma Accepted(batches: seq<seq<seq<byte>>>, pending: seq<seq<byte>>,
                 batches': seq<seq<seq<byte>>>, pending': seq<seq<byte>>, done: seq<Stamped>, m: Stamped)
    requires Concat(batches) + pending == WireAll(done)
    requires (batches' == batches && pending' == pending + [WireBytes(m)]) ||
             (batches' == batches + [pending] && pending' == [WireBytes(m)])
    ensures Concat(batches') + pending' == WireAll(done + [m])
  {
    assert (done + [m])[..|done|] == done;
    if batches' != batches { assert batches'[..|batches|] == batches; }
  }
}
