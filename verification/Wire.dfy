/**
 The binary feed format: packed little-endian messages with an 11-byte header, the header validation, and
 the walk that splits a buffer into messages.
 */
module Wire {
  import opened Basics
  import opened Market
  import opened Ring

  type byte = x: int | 0 <= x < 256

  // ---------------------------------------------------------------- little-endian fields

  function Pow256(k: nat): (r: nat)
    ensures r > 0
  {
    if k == 0 then 1 else 256 * Pow256(k - 1)
  }

  function Encode(n: nat, width: nat): (r: seq<byte>)
    ensures |r| == width
  {
    if width == 0 then [] else [n % 256] + Encode(n / 256, width - 1)
  }

  function Decode(b: seq<byte>): nat {
    if b == [] then 0 else b[0] + 256 * Decode(b[1..])
  }

  lemma {:induction false} DecodeEncode(n: nat, width: nat)
    requires n < Pow256(width)
    ensures Decode(Encode(n, width)) == n
  {
    if width > 0 {
      DecodeEncode(n / 256, width - 1);
      assert Encode(n, width)[1..] == Encode(n / 256, width - 1);
    }
  }

  // A field is a value with its width in bytes.
  datatype Field = Field(value: nat, width: nat)

  predicate FieldFits(f: Field) {
    f.value < Pow256(f.width)
  }

  function Pack(fields: seq<Field>): seq<byte> {
    if fields == [] then [] else Encode(fields[0].value, fields[0].width) + Pack(fields[1..])
  }

  function Widths(fields: seq<Field>): (r: seq<nat>)
    ensures |r| == |fields| && forall i :: 0 <= i < |fields| ==> r[i] == fields[i].width
  {
    seq(|fields|, i requires 0 <= i < |fields| => fields[i].width)
  }

  function Values(fields: seq<Field>): (r: seq<nat>)
    ensures |r| == |fields| && forall i :: 0 <= i < |fields| ==> r[i] == fields[i].value
  {
    seq(|fields|, i requires 0 <= i < |fields| => fields[i].value)
  }

  function Total(widths: seq<nat>): nat {
    if widths == [] then 0 else widths[0] + Total(widths[1..])
  }

  // Reads consecutive fields of the given widths.
  function Unpack(b: seq<byte>, widths: seq<nat>): (r: seq<nat>)
    requires Total(widths) <= |b|
    ensures |r| == |widths|
  {
    if widths == [] then [] else [Decode(b[..widths[0]])] + Unpack(b[widths[0]..], widths[1..])
  }

  lemma {:induction false} PackSize(fields: seq<Field>)
    ensures |Pack(fields)| == Total(Widths(fields))
  {
    if fields != [] {
      PackSize(fields[1..]);
      assert Widths(fields)[1..] == Widths(fields[1..]);
    }
  }

  // What was packed is read back, whatever follows it.
  lemma {:induction false} UnpackPack(fields: seq<Field>, rest: seq<byte>)
    requires forall i :: 0 <= i < |fields| ==> FieldFits(fields[i])
    ensures Total(Widths(fields)) <= |Pack(fields) + rest|
    ensures Unpack(Pack(fields) + rest, Widths(fields)) == Values(fields)
  {
    PackSize(fields);
    if fields != [] {
      var f := fields[0];
      UnpackPack(fields[1..], rest);
      DecodeEncode(f.value, f.width);
      var b := Pack(fields) + rest;
      assert b[..f.width] == Encode(f.value, f.width);
      assert b[f.width..] == Pack(fields[1..]) + rest;
      assert Widths(fields)[1..] == Widths(fields[1..]);
      assert Values(fields) == [f.value] + Values(fields[1..]);
    }
  }

  // ---------------------------------------------------------------- messages

  const HEADER := 11

  function TypeByte(m: Message): byte {
    match m
    case AddOrder(_, _, _, _, _) => 'A' as int
    case CancelOrder(_) => 'X' as int
    case ExecuteOrder(_, _) => 'E' as int
    case ReplaceOrder(_, _, _) => 'R' as int
    case TradeMessage(_, _, _, _, _) => 'T' as int
  }

  function SideByte(s: Side): nat {
    if s == Buy then 1 else 2
  }

  function Payload(m: Message): seq<Field> {
    match m
    case AddOrder(id, side, symbol, price, quantity) =>
      [Field(id, 8), Field(SideByte(side), 1), Field(symbol, 8), Field(price, 4), Field(quantity, 4)]
    case CancelOrder(id) => [Field(id, 8)]
    case ExecuteOrder(id, quantity) => [Field(id, 8), Field(quantity, 4)]
    case ReplaceOrder(id, price, quantity) => [Field(id, 8), Field(price, 4), Field(quantity, 4)]
    case TradeMessage(symbol, price, quantity, buyOrder, sellOrder) =>
      [Field(symbol, 8), Field(price, 4), Field(quantity, 4), Field(buyOrder, 8), Field(sellOrder, 8)]
  }

  // The expected total size for a type byte, or zero for an unknown type.
  function ExpectedSize(t: nat): nat {
    if t == 'A' as int then 36
    else if t == 'X' as int then 19
    else if t == 'E' as int then 23
    else if t == 'R' as int then 27
    else if t == 'T' as int then 43
    else 0
  }

  function PayloadWidths(t: nat): seq<nat> {
    if t == 'A' as int then [8, 1, 8, 4, 4]
    else if t == 'X' as int then [8]
    else if t == 'E' as int then [8, 4]
    else if t == 'R' as int then [8, 4, 4]
    else if t == 'T' as int then [8, 4, 4, 8, 8]
    else []
  }

  function WireSize(m: Message): nat {
    ExpectedSize(TypeByte(m))
  }

  // Every field of the message fits its C++ type.
  predicate Fits(m: Message) {
    match m
    case AddOrder(id, _, symbol, price, quantity) => id < U64 && symbol < U64 && price < U32 && quantity < U32
    case CancelOrder(id) => id < U64
    case ExecuteOrder(id, quantity) => id < U64 && quantity < U32
    case ReplaceOrder(id, price, quantity) => id < U64 && price < U32 && quantity < U32
    case TradeMessage(symbol, price, quantity, b, s) =>
      symbol < U64 && price < U32 && quantity < U32 && b < U64 && s < U64
  }

  datatype Stamped = Stamped(message: Message, timestamp: nat)

  predicate StampedFits(s: Stamped) {
    Fits(s.message) && s.timestamp < U64
  }

  function HeaderFields(s: Stamped): seq<Field> {
    [Field(WireSize(s.message), 2), Field(TypeByte(s.message), 1), Field(s.timestamp, 8)]
  }

  function WireBytes(s: Stamped): seq<byte> {
    Pack(HeaderFields(s)) + Pack(Payload(s.message))
  }

  datatype Header = Header(length: nat, kind: nat, timestamp: nat)

  function DecodeHeader(b: seq<byte>): Header
    requires |b| >= HEADER
  {
    HeaderTotal();
    var v := Unpack(b, [2, 1, 8]);
    Header(v[0], v[1], v[2])
  }

  lemma HeaderTotal()
    ensures Total([2, 1, 8]) == HEADER
  {
    assert Total([8]) == 8 && Total([1, 8]) == 9;
  }

  datatype Error = BufferTooSmall | UnknownMessageType | InvalidLength

  // The validator's four checks, in its order; None means valid.
  function Validate(b: seq<byte>): Option<Error> {
    if |b| < HEADER then Some(BufferTooSmall)
    else
      var h := DecodeHeader(b);
      if ExpectedSize(h.kind) == 0 then Some(UnknownMessageType)
      else if h.length != ExpectedSize(h.kind) then Some(InvalidLength)
      else if |b| < h.length then Some(BufferTooSmall)
      else None
  }

  // The message for a type byte and its field values.  Any side byte but 1 behaves as a sell.
  function FromValues(t: nat, v: seq<nat>): Message
    requires |v| == |PayloadWidths(t)|
  {
    if t == 'A' as int then AddOrder(v[0], if v[1] == 1 then Buy else Sell, v[2], v[3], v[4])
    else if t == 'X' as int then CancelOrder(v[0])
    else if t == 'E' as int then ExecuteOrder(v[0], v[1])
    else if t == 'R' as int then ReplaceOrder(v[0], v[1], v[2])
    else if t == 'T' as int then TradeMessage(v[0], v[1], v[2], v[3], v[4])
    else AddOrder(0, Sell, 0, 0, 0)
  }

  lemma PayloadTotal(t: nat)
    ensures ExpectedSize(t) != 0 ==> HEADER + Total(PayloadWidths(t)) == ExpectedSize(t)
    ensures ExpectedSize(t) == 0 ==> Total(PayloadWidths(t)) == 0
  {
    assert Total([4]) == 4 && Total([8]) == 8;
    assert Total([4, 4]) == 8 && Total([8, 8]) == 16 && Total([8, 4]) == 12;
    assert Total([8, 4, 4]) == 16 && Total([4, 8, 8]) == 20;
    assert Total([4, 4, 8, 8]) == 24 && Total([1, 8, 4, 4]) == 17;
    assert Total([8, 4, 4, 8, 8]) == 32 && Total([8, 1, 8, 4, 4]) == 25;
  }

  // Decodes a message; the header must have been validated first.
  function DecodeMessage(b: seq<byte>): Stamped
    requires Validate(b) == None
  {
    var h := DecodeHeader(b);
    PayloadTotal(h.kind);
    Stamped(FromValues(h.kind, Unpack(b[HEADER..], PayloadWidths(h.kind))), h.timestamp)
  }

  // ---------------------------------------------------------------- one message there and back

  lemma Powers()
    ensures Pow256(1) == 256 && Pow256(2) == 0x1_0000 && Pow256(4) == U32 && Pow256(8) == U64
  {
    assert Pow256(0) == 1 && Pow256(1) == 256 && Pow256(2) == 0x1_0000;
    assert Pow256(3) == 0x100_0000 && Pow256(4) == U32;
    assert Pow256(5) == 0x100_0000_0000 && Pow256(6) == 0x1_0000_0000_0000;
    assert Pow256(7) == 0x100_0000_0000_0000 && Pow256(8) == U64;
  }

  lemma HeaderRoundTrip(s: Stamped, rest: seq<byte>)
    requires StampedFits(s)
    ensures |Pack(HeaderFields(s))| == HEADER
    ensures DecodeHeader(Pack(HeaderFields(s)) + rest) == Header(WireSize(s.message), TypeByte(s.message), s.timestamp)
  {
    Powers();
    HeaderTotal();
    var fields := HeaderFields(s);
    PackSize(fields);
    assert Widths(fields) == [2, 1, 8];
    UnpackPack(fields, rest);
  }

  lemma PayloadRoundTrip(m: Message, rest: seq<byte>)
    requires Fits(m)
    ensures |Pack(Payload(m))| == WireSize(m) - HEADER
    ensures Total(PayloadWidths(TypeByte(m))) <= |Pack(Payload(m)) + rest|
    ensures FromValues(TypeByte(m), Unpack(Pack(Payload(m)) + rest, PayloadWidths(TypeByte(m)))) == m
  {
    Powers();
    var fields := Payload(m);
    PackSize(fields);
    PayloadTotal(TypeByte(m));
    assert Widths(fields) == PayloadWidths(TypeByte(m));
    UnpackPack(fields, rest);
  }

  /** Every message that fits its C++ types survives encoding, passes validation and decodes to itself. */
  lemma MessageRoundTrip(s: Stamped)
    requires StampedFits(s)
    ensures |WireBytes(s)| == WireSize(s.message)
    ensures Validate(WireBytes(s)) == None && DecodeMessage(WireBytes(s)) == s
  {
    var payload := Pack(Payload(s.message));
    HeaderRoundTrip(s, payload);
    PayloadRoundTrip(s.message, []);
    assert payload + [] == payload;
    assert WireBytes(s)[HEADER..] == payload;
  }

  // Writes the message into a caller's buffer; nothing is written when it does not fit.
  method EncodeInto(s: Stamped, buffer: array<byte>) returns (n: nat)
    requires StampedFits(s)
    modifies buffer
    ensures n == if buffer.Length < WireSize(s.message) then 0 else WireSize(s.message)
    ensures n == 0 ==> buffer[..] == old(buffer[..])
    ensures n > 0 ==> n <= buffer.Length && buffer[..n] == WireBytes(s) && buffer[n..] == old(buffer[n..])
  {
    MessageRoundTrip(s);
    var bytes := WireBytes(s);
    if buffer.Length < |bytes| { return 0; }
    forall i | 0 <= i < |bytes| { buffer[i] := bytes[i]; }
    return |bytes|;
  }

  // ---------------------------------------------------------------- where every byte is

  // Little endian: byte i carries the i-th power of 256.
  lemma {:induction false} EncodeByte(n: nat, width: nat, i: nat)
    requires i < width
    ensures Encode(n, width)[i] == n / Pow256(i) % 256
    decreases i
  {
    if i > 0 {
      EncodeByte(n / 256, width - 1, i - 1);
      DivideTwice(n, Pow256(i - 1));
    }
  }

  lemma DivideTwice(n: nat, p: nat)
    requires p > 0
    ensures n / 256 / p == n / (256 * p)
  {
    var a, b := n / 256, n % 256;
    var q, r := a / p, a % p;
    assert n == 256 * (q * p + r) + b == (256 * p) * q + (256 * r + b);
    assert 256 * r + b < 256 * p;
    DivModUnique(n, 256 * p, q, 256 * r + b);
  }

  // A field of a packed record can be read at its offset.
  lemma {:induction false} PackedAt(fields: seq<Field>, k: nat, rest: seq<byte>)
    requires k < |fields| && FieldFits(fields[k])
    ensures var at := Total(Widths(fields[..k]));
      at + fields[k].width <= |Pack(fields) + rest| &&
      Decode((Pack(fields) + rest)[at..at + fields[k].width]) == fields[k].value
    decreases k
  {
    hide Decode, Encode;
    var f, b := fields[0], Pack(fields) + rest;
    PackSize(fields);
    if k == 0 {
      DecodeEncode(f.value, f.width);
      assert fields[..0] == [] && b[0..f.width] == Encode(f.value, f.width);
    } else {
      PackedAt(fields[1..], k - 1, rest);
      assert fields[..k][1..] == fields[1..][..k - 1] && Widths(fields[..k])[1..] == Widths(fields[1..][..k - 1]);
      var at := Total(Widths(fields[1..][..k - 1]));
      assert b[f.width..] == Pack(fields[1..]) + rest;
      assert b[f.width + at..f.width + at + fields[k].width] == b[f.width..][at..at + fields[k].width];
    }
  }

  // The value of the bytes from `from` up to `to`.
  function ValueAt(b: seq<byte>, from: nat, to: nat): nat {
    if from <= to <= |b| then Decode(b[from..to]) else 0
  }

  // The header layout: length in bytes 0 and 1, type in byte 2, timestamp in bytes 3 to 10.
  lemma HeaderLayout(s: Stamped)
    requires StampedFits(s)
    ensures var b := WireBytes(s);
      && |b| == WireSize(s.message) >= HEADER && ValueAt(b, 0, 2) == |b| && ValueAt(b, 3, 11) == s.timestamp
      && b[2] == (match s.message
                  case AddOrder(_, _, _, _, _) => 65
                  case CancelOrder(_) => 88
                  case ExecuteOrder(_, _) => 69
                  case ReplaceOrder(_, _, _) => 82
                  case TradeMessage(_, _, _, _, _) => 84)
  {
    hide Decode, Encode;
    Powers();
    MessageRoundTrip(s);
    var h, p := HeaderFields(s), Pack(Payload(s.message));
    SmallTotals();
    assert Widths(h[..0]) == [] && Widths(h[..1]) == [2] && Widths(h[..2]) == [2, 1];
    PackedAt(h, 0, p);
    PackedAt(h, 1, p);
    PackedAt(h, 2, p);
    OneByte(WireBytes(s), 2);
  }

  lemma OneByte(b: seq<byte>, i: nat)
    requires i < |b|
    ensures Decode(b[i..i + 1]) == b[i]
  {
    var one := b[i..i + 1];
    assert one[1..] == [];
  }

  lemma SmallTotals()
    ensures Total([]) == 0 && Total([2]) == 2 && Total([2, 1]) == 3 && Total([8]) == 8 && Total([8, 1]) == 9
    ensures Total([8, 1, 8]) == 17 && Total([8, 1, 8, 4]) == 21 && Total([8, 4]) == 12 && Total([8, 4, 4]) == 16
    ensures Total([8, 4, 4, 8]) == 24
  {
    assert Total([1]) == 1 && Total([4]) == 4 && Total([8]) == 8;
    assert Total([4, 4]) == 8 && Total([8, 4]) == 12 && Total([4, 8]) == 12 && Total([1, 8]) == 9;
    assert Total([1, 8, 4]) == 13 && Total([4, 4, 8]) == 16;
  }

  // Field k of the payload stands behind the header and the fields before it.
  lemma PayloadField(s: Stamped, k: nat)
    requires StampedFits(s) && k < |Payload(s.message)|
    ensures var at := HEADER + Total(Widths(Payload(s.message)[..k]));
      ValueAt(WireBytes(s), at, at + Payload(s.message)[k].width) == Payload(s.message)[k].value
  {
    Powers();
    HeaderRoundTrip(s, []);
    var fields, h := Payload(s.message), Pack(HeaderFields(s));
    assert FieldFits(fields[k]);
    hide Decode, Encode, Pack, Total, HeaderFields, Payload;
    PackedAt(fields, k, []);
    assert Pack(fields) + [] == Pack(fields);
    SliceBehind(h, Pack(fields), Total(Widths(fields[..k])), fields[k].width);
  }

  lemma SliceBehind(h: seq<byte>, p: seq<byte>, at: nat, w: nat)
    requires at + w <= |p|
    ensures (h + p)[|h| + at..|h| + at + w] == p[at..at + w]
  {
  }

  /** The payload layouts, byte by byte, as the packed structs have them. */
  lemma PayloadLayout(s: Stamped)
    requires StampedFits(s)
    ensures var b := WireBytes(s);
      match s.message
      case AddOrder(id, side, symbol, price, quantity) =>
        && |b| == 36 && ValueAt(b, 11, 19) == id && ValueAt(b, 19, 20) == (if side == Buy then 1 else 2)
        && ValueAt(b, 20, 28) == symbol && ValueAt(b, 28, 32) == price && ValueAt(b, 32, 36) == quantity
      case CancelOrder(id) => |b| == 19 && ValueAt(b, 11, 19) == id
      case ExecuteOrder(id, quantity) => |b| == 23 && ValueAt(b, 11, 19) == id && ValueAt(b, 19, 23) == quantity
      case ReplaceOrder(id, price, quantity) =>
        |b| == 27 && ValueAt(b, 11, 19) == id && ValueAt(b, 19, 23) == price && ValueAt(b, 23, 27) == quantity
      case TradeMessage(symbol, price, quantity, buyOrder, sellOrder) =>
        && |b| == 43 && ValueAt(b, 11, 19) == symbol && ValueAt(b, 19, 23) == price && ValueAt(b, 23, 27) == quantity
        && ValueAt(b, 27, 35) == buyOrder && ValueAt(b, 35, 43) == sellOrder
  {
    hide Decode, Encode, ValueAt, WireBytes, Total, StampedFits;
    SmallTotals();
    MessageRoundTrip(s);
    var p := Payload(s.message);
    PayloadField(s, 0);
    assert Widths(p[..0]) == [];
    if |p| > 1 { PayloadField(s, 1); assert Widths(p[..1]) == [8]; }
    if |p| > 2 { PayloadField(s, 2); assert Widths(p[..2]) == if s.message.AddOrder? then [8, 1] else [8, 4]; }
    if |p| > 3 { PayloadField(s, 3); assert Widths(p[..3]) == if s.message.AddOrder? then [8, 1, 8] else [8, 4, 4]; }
    if |p| > 4 {
      PayloadField(s, 4);
      assert Widths(p[..4]) == if s.message.AddOrder? then [8, 1, 8, 4] else [8, 4, 4, 8];
    }
  }

  /** Exactly which buffers the validator accepts: a known type, its size in the length field, and all of it there. */
  lemma ValidatesExactly(b: seq<byte>)
    ensures Validate(b) == None <==>
      && |b| >= 11 && ValueAt(b, 0, 2) <= |b|
      && (|| (b[2] == 65 && ValueAt(b, 0, 2) == 36) || (b[2] == 88 && ValueAt(b, 0, 2) == 19)
          || (b[2] == 69 && ValueAt(b, 0, 2) == 23) || (b[2] == 82 && ValueAt(b, 0, 2) == 27)
          || (b[2] == 84 && ValueAt(b, 0, 2) == 43))
    ensures Validate(b) == Some(UnknownMessageType) <==> |b| >= 11 && b[2] !in {65, 88, 69, 82, 84}
  {
    if |b| >= HEADER { HeaderBytesAt(b); }
    hide Decode;
  }

  lemma HeaderBytesAt(b: seq<byte>)
    requires |b| >= HEADER
    ensures DecodeHeader(b).length == ValueAt(b, 0, 2) && DecodeHeader(b).kind == b[2]
  {
    HeaderTotal();
    OneByte(b, 2);
    hide Decode;
    var widths: seq<nat> := [2, 1, 8];
    assert widths[1..] == [1, 8];
    assert b[0..2] == b[..2] && b[2..][..1] == b[2..3];
    assert Total([1, 8]) <= |b[2..]| by { assert Total([8]) == 8; }
    assert Unpack(b, widths)[1] == Unpack(b[2..], [1, 8])[0];
  }

  // ---------------------------------------------------------------- splitting a buffer into messages

  // The length field at the front of a message.
  function LengthField(b: seq<byte>): nat
    requires |b| >= 2
  {
    Decode(b[..2])
  }

  // The messages the frame parser finds: it stops at the first length that is too small or too large.
  function Walk(b: seq<byte>): seq<seq<byte>>
    decreases |b|
  {
    if |b| < HEADER || LengthField(b) < HEADER || LengthField(b) > |b| then []
    else [b[..LengthField(b)]] + Walk(b[LengthField(b)..])
  }

  method FrameParse(b: seq<byte>) returns (views: seq<seq<byte>>)
    ensures views == Walk(b)
  {
    hide Walk, Decode;
    views := [];
    var offset := 0;
    assert b[0..] == b && [] + Walk(b) == Walk(b);
    while offset + HEADER <= |b|
      invariant 0 <= offset <= |b|
      invariant views + Walk(b[offset..]) == Walk(b)
      decreases |b| - offset
    {
      var length := Decode(b[offset..offset + 2]);
      if length < HEADER || length > |b| - offset { break; }
      WalkStep(b, offset, length);
      assert views + ([b[offset..offset + length]] + Walk(b[offset + length..])) ==
             views + [b[offset..offset + length]] + Walk(b[offset + length..]);
      views := views + [b[offset..offset + length]];
      offset := offset + length;
    }
    WalkStop(b, offset);
  }

  lemma WalkStep(b: seq<byte>, offset: nat, length: nat)
    requires offset + HEADER <= |b| && length == Decode(b[offset..offset + 2]) && HEADER <= length <= |b| - offset
    ensures Walk(b[offset..]) == [b[offset..offset + length]] + Walk(b[offset + length..])
  {
    hide Decode;
    var rest := b[offset..];
    assert rest[..2] == b[offset..offset + 2];
    assert rest[..length] == b[offset..offset + length] && rest[length..] == b[offset + length..];
  }

  lemma WalkStop(b: seq<byte>, offset: nat)
    requires offset <= |b|
    requires offset + HEADER <= |b| ==>
      Decode(b[offset..offset + 2]) < HEADER || Decode(b[offset..offset + 2]) > |b| - offset
    ensures Walk(b[offset..]) == []
  {
    hide Decode;
    if offset + HEADER <= |b| { assert b[offset..][..2] == b[offset..offset + 2]; }
  }

  // A message whose length field tells its own size.
  predicate Framed(m: seq<byte>) {
    |m| >= HEADER && LengthField(m) == |m|
  }

  predicate AllFramed(ms: seq<seq<byte>>) {
    forall i :: 0 <= i < |ms| ==> Framed(ms[i])
  }

  function Flatten(ms: seq<seq<byte>>): seq<byte> {
    if ms == [] then [] else Flatten(ms[..|ms| - 1]) + ms[|ms| - 1]
  }

  lemma FlattenAppend(ms: seq<seq<byte>>, m: seq<byte>)
    ensures Flatten(ms + [m]) == Flatten(ms) + m
  {
    assert (ms + [m])[..|ms|] == ms;
  }

  lemma {:induction false} FlattenFront(ms: seq<seq<byte>>)
    requires ms != []
    ensures Flatten(ms) == ms[0] + Flatten(ms[1..])
  {
    var n := |ms| - 1;
    if n == 0 {
      assert ms[..0] == [] && ms[1..] == [];
    } else {
      hide Flatten;
      var front, m := ms[..n], ms[n];
      FlattenFront(front);
      FlattenAppend(front, m);
      FlattenAppend(front[1..], m);
      assert ms == front + [m] && ms[1..] == front[1..] + [m];
    }
  }

  lemma {:induction false} WalkFlatten(ms: seq<seq<byte>>)
    requires AllFramed(ms)
    ensures Walk(Flatten(ms)) == ms
    decreases |ms|
  {
    if ms != [] {
      var b, m := Flatten(ms), ms[0];
      FlattenFront(ms);
      assert b[..2] == m[..2] && b[..|m|] == m && b[|m|..] == Flatten(ms[1..]);
      WalkFlatten(ms[1..]);
      assert ms == [m] + ms[1..];
    }
  }

  lemma WireFramed(s: Stamped)
    requires StampedFits(s)
    ensures Framed(WireBytes(s))
  {
    MessageRoundTrip(s);
    HeaderRoundTrip(s, Pack(Payload(s.message)));
    LengthIsFirst(WireBytes(s));
  }

  lemma LengthIsFirst(b: seq<byte>)
    requires |b| >= HEADER
    ensures DecodeHeader(b).length == LengthField(b)
  {
    HeaderTotal();
  }
}
