/** FIX 4.4 messages: building the wire text, parsing it, checking it, and finding where a message ends. */
module FixMessage {
  import opened Basics
  import opened FixText
  import Wire

  const BEGIN_STRING := 8
  const BODY_LENGTH := 9
  const CHECK_SUM := 10
  const FIX44: Bytes := [70, 73, 88, 46, 52, 46, 52]  // "FIX.4.4"

  datatype Field = Field(tag: int, value: Bytes)

  type Fields = seq<Field>

  function FieldBytes(f: Field): Bytes {
    Decimal(f.tag) + [EQUALS] + f.value + [SOH]
  }

  function FieldsBytes(fs: seq<Field>): Bytes {
    if fs == [] then [] else FieldsBytes(fs[..|fs| - 1]) + FieldBytes(fs[|fs| - 1])
  }

  predicate IsBodyTag(tag: int) {
    tag != BEGIN_STRING && tag != BODY_LENGTH && tag != CHECK_SUM
  }

  // The fields that form the body: everything the serializer does not manage itself.
  function BodyFields(fs: seq<Field>): seq<Field> {
    if fs == [] then []
    else BodyFields(fs[..|fs| - 1]) + if IsBodyTag(fs[|fs| - 1].tag) then [fs[|fs| - 1]] else []
  }

  function ByteSum(b: Bytes): nat {
    if b == [] then 0 else ByteSum(b[..|b| - 1]) + b[|b| - 1]
  }

  function CheckSum(b: Bytes): Bytes {
    ThreeDigits(ByteSum(b) % 256)
  }

  // ---------------------------------------------------------------- serialization

  function HeaderFields(bodySize: nat): seq<Field> {
    [Field(BEGIN_STRING, FIX44), Field(BODY_LENGTH, Digits(bodySize))]
  }

  function BeforeCheckSum(fs: seq<Field>): Bytes {
    var body := FieldsBytes(BodyFields(fs));
    FieldsBytes(HeaderFields(|body|)) + body
  }

  function Serialize(fs: seq<Field>): Bytes {
    BeforeCheckSum(fs) + FieldBytes(Field(CHECK_SUM, CheckSum(BeforeCheckSum(fs))))
  }

  // What a receiver should see: header, body in order, trailer.
  function Complete(fs: seq<Field>): seq<Field> {
    HeaderFields(|FieldsBytes(BodyFields(fs))|) + BodyFields(fs) + [Field(CHECK_SUM, CheckSum(BeforeCheckSum(fs)))]
  }

  method SerializeMessage(fs: seq<Field>) returns (wire: Bytes)
    ensures wire == Serialize(fs)
  {
    hide FieldBytes, FieldsBytes, BodyFields, ByteSum, Digits, ThreeDigits;
    var body := WriteBody(fs);
    var header := FieldBytes(Field(BEGIN_STRING, FIX44)) + FieldBytes(Field(BODY_LENGTH, Digits(|body|)));
    HeaderBytes(|body|);
    var pre := header + body;
    var sum := SumBytes(pre);
    wire := pre + FieldBytes(Field(CHECK_SUM, ThreeDigits(sum % 256)));
  }

  method WriteBody(fs: seq<Field>) returns (body: Bytes)
    ensures body == FieldsBytes(BodyFields(fs))
  {
    hide FieldBytes;
    body := [];
    for i := 0 to |fs|
      invariant body == FieldsBytes(BodyFields(fs[..i]))
    {
      BodyNext(fs, i);
      if IsBodyTag(fs[i].tag) {
        FieldsBytesAppend(BodyFields(fs[..i]), fs[i]);
        body := body + FieldBytes(fs[i]);
      }
    }
    assert fs[..|fs|] == fs;
  }

  method SumBytes(b: Bytes) returns (sum: nat)
    ensures sum == ByteSum(b)
  {
    sum := 0;
    for i := 0 to |b|
      invariant sum == ByteSum(b[..i])
    {
      assert b[..i + 1][..i] == b[..i];
      sum := sum + b[i];
    }
    assert b[..|b|] == b;
  }

  lemma BodyNext(fs: seq<Field>, i: nat)
    requires i < |fs|
    ensures BodyFields(fs[..i + 1]) ==
            if IsBodyTag(fs[i].tag) then BodyFields(fs[..i]) + [fs[i]] else BodyFields(fs[..i])
  {
    assert fs[..i + 1][..i] == fs[..i];
  }

  lemma FieldsBytesAppend(fs: seq<Field>, f: Field)
    ensures FieldsBytes(fs + [f]) == FieldsBytes(fs) + FieldBytes(f)
  {
    assert (fs + [f])[..|fs|] == fs;
  }

  lemma HeaderBytes(n: nat)
    ensures FieldsBytes(HeaderFields(n)) ==
            FieldBytes(Field(BEGIN_STRING, FIX44)) + FieldBytes(Field(BODY_LENGTH, Digits(n)))
  {
    var a, b := Field(BEGIN_STRING, FIX44), Field(BODY_LENGTH, Digits(n));
    FieldsBytesAppend([], a);
    FieldsBytesAppend([a], b);
    assert [] + [a] == [a] && [a] + [b] == HeaderFields(n);
  }

  lemma {:induction false} FieldsBytesFront(fs: seq<Field>)
    requires fs != []
    ensures FieldsBytes(fs) == FieldBytes(fs[0]) + FieldsBytes(fs[1..])
  {
    hide FieldBytes, FieldsBytes;
    var n := |fs| - 1;
    if n == 0 {
      FieldsBytesAppend([], fs[0]);
      assert [] + [fs[0]] == fs && fs[1..] == [];
    } else {
      var front, f := fs[..n], fs[n];
      FieldsBytesFront(front);
      FieldsBytesAppend(front, f);
      FieldsBytesAppend(front[1..], f);
      assert fs == front + [f] && fs[1..] == front[1..] + [f];
    }
    NoFields();
  }

  lemma NoFields()
    ensures FieldsBytes([]) == []
  {
  }

  lemma {:induction false} FieldsBytesConcat(a: seq<Field>, b: seq<Field>)
    ensures FieldsBytes(a + b) == FieldsBytes(a) + FieldsBytes(b)
  {
    hide FieldBytes;
    if b == [] {
      assert a + b == a;
    } else {
      var n := |b| - 1;
      FieldsBytesConcat(a, b[..n]);
      assert (a + b)[..|a + b| - 1] == a + b[..n];
    }
  }

  lemma SerializeIsComplete(fs: seq<Field>)
    ensures Serialize(fs) == FieldsBytes(Complete(fs))
  {
    var body := BodyFields(fs);
    var header := HeaderFields(|FieldsBytes(body)|);
    FieldsBytesConcat(header, body);
    FieldsBytesAppend(header + body, Field(CHECK_SUM, CheckSum(BeforeCheckSum(fs))));
  }

  // ---------------------------------------------------------------- parsing

  // Reads fields until the text ends or no '=' is left; None when a tag is not a number.
  function ParseFields(b: Bytes): Option<seq<Field>>
    decreases |b|
  {
    var eq := Find(b, EQUALS);
    if eq.None? then Some([])
    else
      var after := b[eq.value + 1..];
      var soh := Find(after, SOH);
      var tag := ParseInt(b[..eq.value], INT_MAX);
      if tag.None? then None
      else
        var value := if soh.Some? then after[..soh.value] else after;
        var rest := ParseFields(if soh.Some? then after[soh.value + 1..] else []);
        if rest.None? then None else Some([Field(tag.value, value)] + rest.value)
  }

  function Parse(b: Bytes): Option<seq<Field>> {
    var r := ParseFields(b);
    if r == Some([]) then None else r
  }

  method ParseMessage(b: Bytes) returns (r: Option<seq<Field>>)
    ensures r == Parse(b)
  {
    hide ParseFields, Find, ParseInt, Prepend, From;
    var fields: seq<Field> := [];
    var pos := 0;
    PrependNothing(b);
    while pos < |b|
      invariant 0 <= pos <= |b| + 1
      invariant ParseFields(b) == Prepend(fields, ParseFields(From(b, pos)))
      decreases |b| - pos
    {
      var eq := Find(b[pos..], EQUALS);
      if eq.None? { break; }
      var after := b[pos..][eq.value + 1..];
      var soh := Find(after, SOH);
      var tag := ParseInt(b[pos..][..eq.value], INT_MAX);
      if tag.None? {
        BadTag(b, pos, fields, eq.value);
        return None;
      }
      var next := if soh.Some? then pos + eq.value + soh.value + 2 else |b| + 1;
      var field := Field(tag.value, if soh.Some? then after[..soh.value] else after);
      ParseStep(b, pos, fields, eq.value, tag.value, next, field);
      fields, pos := fields + [field], next;
    }
    NoMoreFields(b, pos, fields);
    r := if fields == [] then None else Some(fields);
  }

  lemma BadTag(b: Bytes, pos: nat, fields: seq<Field>, eq: nat)
    requires pos < |b| && Find(b[pos..], EQUALS) == Some(eq) && ParseInt(b[pos..][..eq], INT_MAX) == None
    ensures Prepend(fields, ParseFields(From(b, pos))) == None
  {
    hide Find, ParseInt;
  }

  lemma ParseStep(b: Bytes, pos: nat, fields: seq<Field>, eq: nat, tag: int, next: nat, field: Field)
    requires pos < |b| && Find(b[pos..], EQUALS) == Some(eq) && ParseInt(b[pos..][..eq], INT_MAX) == Some(tag)
    requires var after := b[pos..][eq + 1..];
      var soh := Find(after, SOH);
      && next == (if soh.Some? then pos + eq + soh.value + 2 else |b| + 1)
      && field == Field(tag, if soh.Some? then after[..soh.value] else after)
    ensures pos < next <= |b| + 1
    ensures Prepend(fields, ParseFields(From(b, pos))) == Prepend(fields + [field], ParseFields(From(b, next)))
  {
    hide Find, ParseInt;
    var after := b[pos..][eq + 1..];
    var soh := Find(after, SOH);
    assert From(b, next) == if soh.Some? then after[soh.value + 1..] else [];
    PrependOne(fields, field, ParseFields(From(b, next)));
  }

  lemma NoMoreFields(b: Bytes, pos: nat, fields: seq<Field>)
    requires pos < |b| ==> Find(b[pos..], EQUALS) == None
    ensures Prepend(fields, ParseFields(From(b, pos))) == Some(fields)
  {
    assert fields + [] == fields;
  }

  function From(b: Bytes, pos: nat): Bytes {
    if pos <= |b| then b[pos..] else []
  }

  function Prepend(fields: seq<Field>, r: Option<seq<Field>>): Option<seq<Field>> {
    if r.None? then None else Some(fields + r.value)
  }

  lemma PrependNothing(b: Bytes)
    ensures ParseFields(b) == Prepend([], ParseFields(From(b, 0)))
  {
    assert b[0..] == b;
    var r := ParseFields(b);
    if r.Some? { assert [] + r.value == r.value; }
  }

  lemma PrependOne(fields: seq<Field>, f: Field, r: Option<seq<Field>>)
    ensures Prepend(fields, Prepend([f], r)) == Prepend(fields + [f], r)
  {
    if r.Some? { assert fields + ([f] + r.value) == fields + [f] + r.value; }
  }

  // ---------------------------------------------------------------- there and back

  // A field the wire can carry: an int tag and a value without the separator.
  predicate Carriable(f: Field) {
    0 - INT_MAX - 1 <= f.tag <= INT_MAX && SOH !in f.value
  }

  predicate AllCarriable(fs: seq<Field>) {
    forall i :: 0 <= i < |fs| ==> Carriable(fs[i])
  }

  lemma ParseOneField(f: Field, rest: Bytes)
    requires Carriable(f)
    ensures ParseFields(FieldBytes(f) + rest) ==
            if ParseFields(rest).None? then None else Some([f] + ParseFields(rest).value)
  {
    hide Find, ParseInt;
    var tag := Decimal(f.tag);
    var b := FieldBytes(f) + rest;
    assert EQUALS !in tag;
    assert b == tag + [EQUALS] + (f.value + [SOH] + rest);
    FindAfter(tag, EQUALS, f.value + [SOH] + rest);
    assert b[..|tag|] == tag && b[|tag| + 1..] == f.value + [SOH] + rest;
    FindAfter(f.value, SOH, rest);
    var after := b[|tag| + 1..];
    assert after[..|f.value|] == f.value && after[|f.value| + 1..] == rest;
    ParseDecimal(f.tag, INT_MAX);
  }

  lemma {:induction false} ParseManyFields(fs: seq<Field>)
    requires AllCarriable(fs)
    ensures ParseFields(FieldsBytes(fs)) == Some(fs)
    decreases |fs|
  {
    hide FieldBytes, FieldsBytes, ParseFields, AllCarriable;
    if fs == [] {
      NothingToParse();
    } else {
      var f, rest := fs[0], fs[1..];
      CarriableParts(fs);
      FieldsBytesFront(fs);
      ParseManyFields(rest);
      ParseOneField(f, FieldsBytes(rest));
      assert fs == [f] + rest;
    }
  }

  lemma CarriableParts(fs: seq<Field>)
    requires AllCarriable(fs) && fs != []
    ensures Carriable(fs[0]) && AllCarriable(fs[1..])
  {
    hide Carriable;
  }

  lemma NothingToParse()
    ensures ParseFields(FieldsBytes([])) == Some([])
  {
  }

  lemma {:induction false} BodyCarriable(fs: seq<Field>)
    requires AllCarriable(fs)
    ensures AllCarriable(BodyFields(fs))
  {
    if fs != [] { BodyCarriable(fs[..|fs| - 1]); }
  }

  lemma CompleteCarriable(fs: seq<Field>)
    requires AllCarriable(fs)
    ensures AllCarriable(Complete(fs))
  {
    BodyCarriable(fs);
    var c := Complete(fs);
    forall i | 0 <= i < |c| ensures Carriable(c[i])
    {
      if 2 <= i < |c| - 1 { assert c[i] == BodyFields(fs)[i - 2]; }
    }
  }

  /** Parsing a serialized message gives back its body between a regenerated header and trailer. */
  lemma ParseSerialize(fs: seq<Field>)
    requires AllCarriable(fs)
    ensures Parse(Serialize(fs)) == Some(Complete(fs))
  {
    SerializeIsComplete(fs);
    CompleteCarriable(fs);
    ParseManyFields(Complete(fs));
  }

  // ---------------------------------------------------------------- checks on a parsed message

  // The first value stored under a tag.
  function GetTag(fs: seq<Field>, tag: int): Option<Bytes> {
    if fs == [] then None else if fs[0].tag == tag then Some(fs[0].value) else GetTag(fs[1..], tag)
  }

  function WithoutCheckSum(fs: seq<Field>): seq<Field> {
    if fs == [] then []
    else WithoutCheckSum(fs[..|fs| - 1]) + if fs[|fs| - 1].tag != CHECK_SUM then [fs[|fs| - 1]] else []
  }

  predicate ValidCheckSum(fs: seq<Field>) {
    GetTag(fs, CHECK_SUM) == Some(CheckSum(FieldsBytes(WithoutCheckSum(fs))))
  }

  predicate ValidBodyLength(fs: seq<Field>) {
    var declared := GetTag(fs, BODY_LENGTH);
    declared.Some? && ParseInt(declared.value, LLONG_MAX) == Some(|FieldsBytes(BodyFields(fs))|)
  }

  lemma {:induction false} GetTagAfter(fs: seq<Field>, f: Field)
    requires forall i :: 0 <= i < |fs| ==> fs[i].tag != f.tag
    ensures GetTag(fs + [f], f.tag) == Some(f.value)
  {
    if fs != [] {
      GetTagAfter(fs[1..], f);
      assert (fs + [f])[1..] == fs[1..] + [f];
    }
  }

  lemma {:induction false} WithoutCheckSumAll(fs: seq<Field>)
    requires forall i :: 0 <= i < |fs| ==> fs[i].tag != CHECK_SUM
    ensures WithoutCheckSum(fs) == fs
  {
    if fs != [] { WithoutCheckSumAll(fs[..|fs| - 1]); }
  }

  lemma {:induction false} BodyTags(fs: seq<Field>)
    ensures forall i :: 0 <= i < |BodyFields(fs)| ==> IsBodyTag(BodyFields(fs)[i].tag)
    ensures BodyFields(BodyFields(fs)) == BodyFields(fs)
  {
    if fs != [] {
      BodyTags(fs[..|fs| - 1]);
      if IsBodyTag(fs[|fs| - 1].tag) {
        assert BodyFields(fs)[..|BodyFields(fs)| - 1] == BodyFields(fs[..|fs| - 1]);
      } else {
        assert BodyFields(fs) == BodyFields(fs[..|fs| - 1]);
      }
    }
  }

  lemma {:induction false} BodyOfConcat(a: seq<Field>, b: seq<Field>)
    ensures BodyFields(a + b) == BodyFields(a) + BodyFields(b)
  {
    if b == [] {
      assert a + b == a;
    } else {
      BodyOfConcat(a, b[..|b| - 1]);
      assert (a + b)[..|a + b| - 1] == a + b[..|b| - 1];
    }
  }

  // Header and trailer are not part of the body.
  lemma BodyOfFramed(n: nat, fs: seq<Field>, sum: Bytes)
    ensures BodyFields(HeaderFields(n) + fs + [Field(CHECK_SUM, sum)]) == BodyFields(fs)
  {
    hide Digits;
    var header, trailer := HeaderFields(n), [Field(CHECK_SUM, sum)];
    BodyOfConcat(header + fs, trailer);
    BodyOfConcat(header, fs);
    assert header[..1] == [header[0]] && header[..1][..0] == [] && trailer[..0] == [];
    assert BodyFields(header[..1]) == [];
    assert BodyFields(header) == [] && BodyFields(trailer) == [];
  }

  lemma BodyOfComplete(fs: seq<Field>)
    ensures BodyFields(Complete(fs)) == BodyFields(fs)
  {
    hide FieldsBytes, CheckSum, BodyFields;
    BodyTags(fs);
    BodyOfFramed(|FieldsBytes(BodyFields(fs))|, BodyFields(fs), CheckSum(BeforeCheckSum(fs)));
  }

  lemma CompleteCheckSum(fs: seq<Field>)
    ensures ValidCheckSum(Complete(fs))
  {
    hide FieldBytes, FieldsBytes, Digits, ByteSum, ThreeDigits, CheckSum;
    var body := BodyFields(fs);
    var header := HeaderFields(|FieldsBytes(body)|);
    var front, trailer := header + body, Field(CHECK_SUM, CheckSum(BeforeCheckSum(fs)));
    BodyTags(fs);
    forall i | 0 <= i < |front| ensures front[i].tag != CHECK_SUM
    {
      if i >= 2 { assert front[i] == body[i - 2]; }
    }
    GetTagAfter(front, trailer);
    WithoutCheckSumAll(front);
    assert Complete(fs) == front + [trailer] && Complete(fs)[..|front|] == front;
    assert WithoutCheckSum(Complete(fs)) == front;
    FieldsBytesConcat(header, body);
  }

  lemma CompleteBodyLength(fs: seq<Field>)
    requires |FieldsBytes(BodyFields(fs))| <= LLONG_MAX
    ensures ValidBodyLength(Complete(fs))
  {
    hide FieldBytes, FieldsBytes, Digits, CheckSum, ParseInt;
    var n := |FieldsBytes(BodyFields(fs))|;
    var c := Complete(fs);
    assert c[0].tag == BEGIN_STRING && c[1..][0] == HeaderFields(n)[1];
    assert GetTag(c, BODY_LENGTH) == GetTag(c[1..], BODY_LENGTH) == Some(Digits(n));
    BodyOfComplete(fs);
    ParseDigits(n, LLONG_MAX);
  }

  /** What the serializer wrote passes both checks of the receiver. */
  lemma CompleteIsValid(fs: seq<Field>)
    requires |FieldsBytes(BodyFields(fs))| <= LLONG_MAX
    ensures ValidCheckSum(Complete(fs)) && ValidBodyLength(Complete(fs))
  {
    CompleteCheckSum(fs);
    CompleteBodyLength(fs);
  }

  // ---------------------------------------------------------------- what the checks catch

  lemma {:induction false} ByteSumConcat(a: Bytes, b: Bytes)
    ensures ByteSum(a + b) == ByteSum(a) + ByteSum(b)
  {
    if b == [] {
      assert a + b == a;
    } else {
      ByteSumConcat(a, b[..|b| - 1]);
      assert (a + b)[..|a + b| - 1] == a + b[..|b| - 1];
    }
  }

  lemma ByteSumOne(x: Wire.byte)
    ensures ByteSum([x]) == x
  {
    var b: Bytes := [x];
    assert b[..0] == [];
  }

  // Three decimal digits read back as the number.
  lemma ThreeDigitsRead(n: nat)
    requires n < 256
    ensures ParseInt(ThreeDigits(n), LLONG_MAX) == Some(n)
  {
    hide ParseInt, Value;
    var d := ThreeDigits(n);
    ThreeDigitsValue(n);
    ParseIntReads([], [], d, [], LLONG_MAX);
    assert [] + ([] + (d + [])) == d;
  }

  lemma ThreeDigitsValue(n: nat)
    requires n < 256
    ensures Value(ThreeDigits(n)) == n
  {
    var d := ThreeDigits(n);
    assert d[..2][..1] == d[..1] && d[..1][..0] == [];
    assert Value(d[..1]) == n / 100;
    assert Value(d[..2]) == n / 100 * 10 + n / 10 % 10;
  }

  // The check sum is the sum of the bytes modulo 256, as three digits.
  lemma CheckSumReads(b: Bytes)
    ensures |CheckSum(b)| == 3 && ParseInt(CheckSum(b), LLONG_MAX) == Some(ByteSum(b) % 256)
  {
    hide ParseInt, ByteSum, ThreeDigits;
    ThreeDigitsRead(ByteSum(b) % 256);
  }

  lemma FieldSum(f: Field, v: Bytes)
    ensures ByteSum(FieldBytes(f.(value := v))) - ByteSum(FieldBytes(f)) == ByteSum(v) - ByteSum(f.value)
    ensures |FieldBytes(f.(value := v))| - |FieldBytes(f)| == |v| - |f.value|
  {
    hide ByteSum, Decimal;
    var tag := Decimal(f.tag) + [EQUALS];
    ByteSumConcat(tag + v, [SOH]);
    ByteSumConcat(tag, v);
    ByteSumConcat(tag + f.value, [SOH]);
    ByteSumConcat(tag, f.value);
  }

  // Changing one value changes sum and size of the text by the difference of the values.
  lemma ChangedText(fs: seq<Field>, i: nat, v: Bytes)
    requires i < |fs|
    ensures var text, text' := FieldsBytes(fs), FieldsBytes(fs[i := fs[i].(value := v)]);
      && ByteSum(text') - ByteSum(text) == ByteSum(v) - ByteSum(fs[i].value)
      && |text'| - |text| == |v| - |fs[i].value|
  {
    hide FieldsBytes, FieldBytes, ByteSum;
    var a, b, f := fs[..i], fs[i + 1..], fs[i];
    FieldSum(f, v);
    AroundOne(a, f, b);
    AroundOne(a, f.(value := v), b);
    assert fs == a + [f] + b && fs[i := f.(value := v)] == a + [f.(value := v)] + b;
  }

  lemma AroundOne(a: seq<Field>, f: Field, b: seq<Field>)
    ensures ByteSum(FieldsBytes(a + [f] + b)) ==
            ByteSum(FieldsBytes(a)) + ByteSum(FieldBytes(f)) + ByteSum(FieldsBytes(b))
    ensures |FieldsBytes(a + [f] + b)| == |FieldsBytes(a)| + |FieldBytes(f)| + |FieldsBytes(b)|
  {
    hide FieldsBytes, FieldBytes, ByteSum;
    FieldsBytesConcat(a + [f], b);
    FieldsBytesAppend(a, f);
    ByteSumConcat(FieldsBytes(a) + FieldBytes(f), FieldsBytes(b));
    ByteSumConcat(FieldsBytes(a), FieldBytes(f));
  }

  // A received message in which one body value is no longer the one that was sent.
  function Tampered(fs: seq<Field>, i: nat, v: Bytes): seq<Field>
    requires i < |BodyFields(fs)|
  {
    Complete(fs)[i + 2 := BodyFields(fs)[i].(value := v)]
  }

  lemma TamperedParts(fs: seq<Field>, i: nat, v: Bytes)
    requires i < |BodyFields(fs)|
    ensures var body := BodyFields(fs);
      var header := HeaderFields(|FieldsBytes(body)|);
      |header| == 2 &&
      var front := (header + body)[i + 2 := body[i].(value := v)];
      && Tampered(fs, i, v) == front + [Field(CHECK_SUM, CheckSum(BeforeCheckSum(fs)))]
      && front == header + body[i := body[i].(value := v)]
      && (forall j :: 0 <= j < |front| ==> front[j].tag != CHECK_SUM)
  {
    hide FieldsBytes, CheckSum, BodyFields, Digits;
    BodyTags(fs);
    var body := BodyFields(fs);
    var header := HeaderFields(|FieldsBytes(body)|);
    var front := (header + body)[i + 2 := body[i].(value := v)];
    forall j | 0 <= j < |front| ensures front[j].tag != CHECK_SUM
    {
      if j >= 2 { assert front[j].tag == body[j - 2].tag && IsBodyTag(body[j - 2].tag); }
    }
  }

  /** A changed value passes the check sum if and only if its bytes have the same sum modulo 256. */
  lemma TamperedCheckSum(fs: seq<Field>, i: nat, v: Bytes)
    requires i < |BodyFields(fs)|
    ensures ValidCheckSum(Tampered(fs, i, v)) <==> ByteSum(v) % 256 == ByteSum(BodyFields(fs)[i].value) % 256
  {
    hide FieldsBytes, BodyFields, Digits, ByteSum, CheckSum, GetTag, ParseInt, HeaderFields;
    var body := BodyFields(fs);
    var header := HeaderFields(|FieldsBytes(body)|);
    var all := header + body;
    HeaderSize(|FieldsBytes(body)|);
    var front, trailer := all[i + 2 := body[i].(value := v)], Field(CHECK_SUM, CheckSum(BeforeCheckSum(fs)));
    TamperedParts(fs, i, v);
    assert all[i + 2] == body[i];
    GetTagAfter(front, trailer);
    WithoutCheckSumAll(front);
    assert (front + [trailer])[..|front|] == front;
    assert WithoutCheckSum(front + [trailer]) == front;
    ChangedText(all, i + 2, v);
    FieldsBytesConcat(header, body);
    CheckSumReads(FieldsBytes(front));
    CheckSumReads(BeforeCheckSum(fs));
    SameCheckSum(FieldsBytes(front), BeforeCheckSum(fs));
  }

  lemma HeaderSize(n: nat)
    ensures |HeaderFields(n)| == 2
  {
  }

  lemma SameCheckSum(a: Bytes, b: Bytes)
    ensures CheckSum(a) == CheckSum(b) <==> ByteSum(a) % 256 == ByteSum(b) % 256
  {
    hide ByteSum, ParseInt, ThreeDigits;
    CheckSumReads(a);
    CheckSumReads(b);
  }

  /** A changed value passes the body length check if and only if it is as long as the one sent. */
  lemma TamperedBodyLength(fs: seq<Field>, i: nat, v: Bytes)
    requires i < |BodyFields(fs)| && |FieldsBytes(BodyFields(fs))| <= LLONG_MAX
    ensures ValidBodyLength(Tampered(fs, i, v)) <==> |v| == |BodyFields(fs)[i].value|
  {
    hide FieldsBytes, Digits, CheckSum, ParseInt, ByteSum;
    var body := BodyFields(fs);
    var n := |FieldsBytes(body)|;
    var gs := Tampered(fs, i, v);
    TamperedParts(fs, i, v);
    assert gs[0].tag == BEGIN_STRING && gs[1..][0] == HeaderFields(n)[1];
    assert GetTag(gs, BODY_LENGTH) == GetTag(gs[1..], BODY_LENGTH) == Some(Digits(n));
    ParseDigits(n, LLONG_MAX);
    TamperedBody(fs, i, v);
    ChangedText(body, i, v);
  }

  lemma TamperedBody(fs: seq<Field>, i: nat, v: Bytes)
    requires i < |BodyFields(fs)|
    ensures BodyFields(Tampered(fs, i, v)) == BodyFields(fs)[i := BodyFields(fs)[i].(value := v)]
  {
    hide FieldsBytes, CheckSum, BodyFields, Tampered, HeaderFields;
    var body := BodyFields(fs);
    var body' := body[i := body[i].(value := v)];
    TamperedParts(fs, i, v);
    BodyTags(fs);
    AllBody(body');
    BodyOfFramed(|FieldsBytes(body)|, body', CheckSum(BeforeCheckSum(fs)));
  }

  lemma {:induction false} AllBody(fs: seq<Field>)
    requires forall i :: 0 <= i < |fs| ==> IsBodyTag(fs[i].tag)
    ensures BodyFields(fs) == fs
  {
    if fs != [] { AllBody(fs[..|fs| - 1]); }
  }

  // The body is everything but begin string, body length and check sum.
  lemma {:induction false} BodyIsTheRest(fs: seq<Field>, f: Field)
    ensures f in BodyFields(fs) <==> f in fs && f.tag != 8 && f.tag != 9 && f.tag != 10
  {
    if fs != [] {
      BodyIsTheRest(fs[..|fs| - 1], f);
      assert fs == fs[..|fs| - 1] + [fs[|fs| - 1]];
    }
  }

  // ---------------------------------------------------------------- malformed text

  // A tag that is not a number spoils the message.
  lemma {:induction false} BadTagSpoils(fs: seq<Field>, tag: Bytes, rest: Bytes)
    requires AllCarriable(fs) && EQUALS !in tag && ParseInt(tag, INT_MAX) == None
    ensures ParseFields(FieldsBytes(fs) + (tag + [EQUALS] + rest)) == None
    decreases |fs|
  {
    hide FieldBytes, FieldsBytes, ParseFields, AllCarriable, ParseInt;
    var bad := tag + [EQUALS] + rest;
    if fs == [] {
      NoFields();
      assert [] + bad == bad;
      BadTagFirst(tag, rest);
    } else {
      var head, tail := FieldBytes(fs[0]), FieldsBytes(fs[1..]);
      CarriableParts(fs);
      FieldsBytesFront(fs);
      BadTagSpoils(fs[1..], tag, rest);
      ParseOneField(fs[0], tail + bad);
      assert head + tail + bad == head + (tail + bad);
    }
  }

  lemma BadTagFirst(tag: Bytes, rest: Bytes)
    requires EQUALS !in tag && ParseInt(tag, INT_MAX) == None
    ensures ParseFields(tag + [EQUALS] + rest) == None
  {
    hide ParseInt, Find;
    FindAfter(tag, EQUALS, rest);
    assert (tag + [EQUALS] + rest)[..|tag|] == tag;
  }

  // A missing separator at the end is forgiven.
  lemma LastFieldOpen(f: Field)
    requires Carriable(f)
    ensures ParseFields(Decimal(f.tag) + [EQUALS] + f.value) == Some([f])
  {
    hide ParseInt, Find, Decimal;
    var tag := Decimal(f.tag);
    NoEqualsInNumber(f.tag);
    var b := tag + [EQUALS] + f.value;
    FindAfter(tag, EQUALS, f.value);
    assert b[..|tag|] == tag && b[|tag| + 1..] == f.value;
    assert Find(f.value, SOH) == None;
    ParseDecimal(f.tag, INT_MAX);
    assert Find([], EQUALS) == None && ParseFields([]) == Some([]);
    assert [f] + [] == [f];
  }

  lemma NoEqualsInNumber(n: int)
    ensures EQUALS !in Decimal(n)
  {
  }

  // ---------------------------------------------------------------- framing

  // The length of the first complete message in a buffer, or zero.
  function ExtractLength(b: Bytes): (n: nat)
    ensures n <= |b|
  {
    if |b| < 2 || b[..2] != [56, EQUALS] then 0
    else
      var nine := FindTagNine(b, 0);
      if nine.None? then 0
      else
        var start := nine.value + 3;
        var soh := Find(b[start..], SOH);
        if soh.None? then 0
        else
          var bodyLength := ParseInt(b[start..][..soh.value], INT_MAX);
          if bodyLength.None? then 0
          else
            var end := (start + soh.value + 1 + bodyLength.value + 7) % U64;
            if end > |b| then 0 else end
  }

  // The fixed text in front of the body length.
  const PREFIX: Bytes := [56, 61, 70, 73, 88, 46, 52, 46, 52, 1, 57, 61]

  // A serialized message is the prefix, the body length, the body of that many bytes, and a trailer of seven.
  lemma SerializeShape(fs: seq<Field>) returns (trailer: Bytes)
    ensures |trailer| == 7
    ensures var body := FieldsBytes(BodyFields(fs));
      Serialize(fs) == PREFIX + Digits(|body|) + [SOH] + (body + trailer)
  {
    hide FieldsBytes, ByteSum, BodyFields, Digits, ThreeDigits;
    var body := FieldsBytes(BodyFields(fs));
    HeaderBytes(|body|);
    FixedText();
    var header := Field(BODY_LENGTH, Digits(|body|));
    trailer := FieldBytes(Field(CHECK_SUM, CheckSum(BeforeCheckSum(fs))));
    assert FieldBytes(header) == PREFIX[10..] + Digits(|body|) + [SOH];
    assert PREFIX == PREFIX[..10] + PREFIX[10..];
  }

  // The parts of the text that do not depend on the message.
  lemma FixedText()
    ensures FieldBytes(Field(BEGIN_STRING, FIX44)) == PREFIX[..10]
    ensures Decimal(BODY_LENGTH) == [57] && |Decimal(CHECK_SUM)| == 2
  {
    assert Digits(8) == [56] && Digits(9) == [57];
    assert Digits(10) == Digits(1) + [48];
  }

  // Two byte strings that agree wherever both are defined.
  predicate Compatible(a: Bytes, b: Bytes) {
    a <= b || b <= a
  }

  // In a buffer that starts like a message, "9=" is found right after the begin string or not at all.
  lemma TagNinePosition(b: Bytes)
    requires Compatible(b, PREFIX)
    ensures |b| >= 12 ==> FindTagNine(b, 0) == Some(9)
    ensures |b| < 12 ==> FindTagNine(b, 0) == None
  {
    var r := FindTagNine(b, 0);
    assert forall i :: 0 <= i < |b| && i < 12 ==> b[i] == PREFIX[i];
    if |b| >= 12 { assert TagNineAt(b, 9); }
  }

  // Once the body length can be read, the end of the message is known.
  lemma ExtractFromNumber(b: Bytes, digits: Bytes, n: nat)
    requires |b| > 12 + |digits| && b[..2] == [56, EQUALS] && FindTagNine(b, 0) == Some(9)
    requires Find(b[12..], SOH) == Some(|digits|) && b[12..][..|digits|] == digits
    requires ParseInt(digits, INT_MAX) == Some(n) && n <= INT_MAX && |digits| <= n + 1
    ensures var end := 12 + |digits| + 1 + n + 7;
      ExtractLength(b) == if end <= |b| then end else 0
  {
    hide ParseInt, FindTagNine, Find;
  }

  // Before that there is no message.
  lemma ExtractTooEarly(b: Bytes)
    requires FindTagNine(b, 0) == None || (FindTagNine(b, 0) == Some(9) && 12 <= |b| && Find(b[12..], SOH) == None)
    ensures ExtractLength(b) == 0
  {
    hide ParseInt, FindTagNine, Find;
  }

  /**
   Framing is exact: on a buffer that agrees with a serialized message, the length of that message is
   reported when all of it has arrived, and zero otherwise.
   */
  lemma ExtractExact(fs: seq<Field>, b: Bytes)
    requires |FieldsBytes(BodyFields(fs))| <= INT_MAX && Compatible(b, Serialize(fs))
    ensures ExtractLength(b) == if |b| >= |Serialize(fs)| then |Serialize(fs)| else 0
  {
    hide Serialize, FieldsBytes, BodyFields, ParseInt, Digits, FindTagNine, Find, AllDigits, ExtractLength;
    var w, body := Serialize(fs), FieldsBytes(BodyFields(fs));
    var digits := Digits(|body|);
    var trailer := SerializeShape(fs);
    var tail := digits + [SOH] + (body + trailer);
    assert w == PREFIX + tail;
    CompatibleSplit(b, PREFIX, tail);
    TagNinePosition(b);
    if |b| < 12 {
      ExtractTooEarly(b);
    } else {
      NumberThenSoh(digits, b[12..], body + trailer);
      if |b| <= 12 + |digits| {
        ExtractTooEarly(b);
      } else {
        DigitsShort(|body|);
        ParseDigits(|body|, INT_MAX);
        ExtractFromNumber(b, digits, |body|);
      }
    }
  }

  lemma CompatibleSplit(b: Bytes, prefix: Bytes, tail: Bytes)
    requires Compatible(b, prefix + tail)
    ensures Compatible(b, prefix)
    ensures |b| >= |prefix| ==> b[..|prefix|] == prefix && Compatible(b[|prefix|..], tail)
    ensures |prefix| >= 2 && |b| >= |prefix| ==> b[..2] == prefix[..2]
  {
    var w := prefix + tail;
    if b <= w {
      if |b| >= |prefix| { assert b[|prefix|..] == w[|prefix|..][..|b| - |prefix|]; }
    } else {
      assert b[|prefix|..][..|tail|] == tail;
    }
  }

  lemma NumberThenSoh(digits: Bytes, b: Bytes, rest: Bytes)
    requires AllDigits(digits) && Compatible(b, digits + [SOH] + rest)
    ensures |b| <= |digits| ==> Find(b, SOH) == None
    ensures |b| > |digits| ==> Find(b, SOH) == Some(|digits|) && b[..|digits|] == digits
  {
    var full := digits + [SOH] + rest;
    if |b| <= |digits| {
      assert b == digits[..|b|];
    } else {
      assert b == digits + [SOH] + b[|digits| + 1..];
      FindAfter(digits, SOH, b[|digits| + 1..]);
    }
  }
}
