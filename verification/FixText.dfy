/** The text primitives under the FIX codec: decimal numbers, number parsing and searching. */
module FixText {
  import opened Basics
  import Wire

  type Bytes = seq<Wire.byte>

  const SOH: Wire.byte := 1
  const EQUALS: Wire.byte := 61
  const INT_MAX := 0x7FFF_FFFF
  const LLONG_MAX := 0x7FFF_FFFF_FFFF_FFFF

  // ---------------------------------------------------------------- decimal numbers

  predicate IsDigit(b: Wire.byte) {
    48 <= b <= 57
  }

  predicate AllDigits(b: Bytes) {
    forall i :: 0 <= i < |b| ==> IsDigit(b[i])
  }

  function Digits(n: nat): (r: Bytes)
    ensures r != [] && AllDigits(r)
  {
    if n < 10 then [48 + n] else Digits(n / 10) + [48 + n % 10]
  }

  // std::to_string
  function Decimal(n: int): Bytes {
    if n < 0 then [45] + Digits(-n) else Digits(n)
  }

  function Value(b: Bytes): nat
    requires AllDigits(b)
  {
    if b == [] then 0 else Value(b[..|b| - 1]) * 10 + (b[|b| - 1] - 48)
  }

  lemma {:induction false} ValueOfDigits(n: nat)
    ensures Value(Digits(n)) == n
  {
    if n >= 10 {
      ValueOfDigits(n / 10);
      var d := Digits(n);
      assert d[..|d| - 1] == Digits(n / 10);
    } else {
      assert Digits(n)[..0] == [];
    }
  }

  lemma {:induction false} DigitsShort(n: nat)
    ensures |Digits(n)| <= n + 1
  {
    if n >= 10 { DigitsShort(n / 10); }
  }

  // %03u for a value below 256.
  function ThreeDigits(n: nat): (r: Bytes)
    requires n < 256
    ensures |r| == 3 && AllDigits(r)
  {
    [48 + n / 100, 48 + n / 10 % 10, 48 + n % 10]
  }

  // ---------------------------------------------------------------- stoi and stoll

  function SkipSpaces(b: Bytes): Bytes {
    if b != [] && (b[0] == 32 || 9 <= b[0] <= 13) then SkipSpaces(b[1..]) else b
  }

  // The number of digits at the front.
  function DigitRun(b: Bytes): (k: nat)
    ensures k <= |b| && AllDigits(b[..k]) && (k < |b| ==> !IsDigit(b[k]))
  {
    if b == [] || !IsDigit(b[0]) then 0
    else
      var k := 1 + DigitRun(b[1..]);
      assert b[..k] == [b[0]] + b[1..][..k - 1];
      k
  }

  // Leading blanks, a sign, digits; whatever follows is ignored.  None stands for the exceptions thrown
  // when there is no digit or the number is out of [-limit - 1, limit].
  function ParseInt(b: Bytes, limit: nat): Option<int> {
    var t := SkipSpaces(b);
    var negative := t != [] && t[0] == 45;
    var u := if t != [] && (t[0] == 45 || t[0] == 43) then t[1..] else t;
    var k := DigitRun(u);
    if k == 0 then None
    else
      var v: int := if negative then 0 - Value(u[..k]) else Value(u[..k]);
      if 0 - limit - 1 <= v <= limit then Some(v) else None
  }

  lemma {:induction false} DigitRunAll(b: Bytes)
    requires AllDigits(b)
    ensures DigitRun(b) == |b|
  {
    if b != [] { DigitRunAll(b[1..]); }
  }

  lemma ParseDigits(n: nat, limit: nat)
    requires n <= limit
    ensures ParseInt(Digits(n), limit) == Some(n)
  {
    var d := Digits(n);
    assert IsDigit(d[0]);
    DigitRunAll(d);
    assert d[..|d|] == d;
    ValueOfDigits(n);
  }

  // A printed integer reads back, sign included.
  lemma ParseDecimal(n: int, limit: nat)
    requires 0 - limit - 1 <= n <= limit
    ensures ParseInt(Decimal(n), limit) == Some(n)
  {
    if n >= 0 {
      ParseDigits(n, limit);
    } else {
      var d := Digits(-n);
      var t := Decimal(n);
      assert t[0] == 45 && t[1..] == d;
      DigitRunAll(d);
      assert d[..|d|] == d;
      ValueOfDigits(-n);
    }
  }

  predicate IsBlank(b: Wire.byte) {
    b == 32 || 9 <= b <= 13
  }

  lemma {:induction false} SkipsBlanks(blanks: Bytes, rest: Bytes)
    requires (forall i :: 0 <= i < |blanks| ==> IsBlank(blanks[i])) && (rest == [] || !IsBlank(rest[0]))
    ensures SkipSpaces(blanks + rest) == rest
  {
    if blanks == [] {
      assert blanks + rest == rest;
    } else {
      SkipsBlanks(blanks[1..], rest);
      assert (blanks + rest)[1..] == blanks[1..] + rest;
    }
  }

  lemma {:induction false} DigitRunOf(digits: Bytes, rest: Bytes)
    requires AllDigits(digits) && (rest == [] || !IsDigit(rest[0]))
    ensures DigitRun(digits + rest) == |digits|
  {
    if digits == [] {
      assert digits + rest == rest;
    } else {
      DigitRunOf(digits[1..], rest);
      assert (digits + rest)[1..] == digits[1..] + rest;
    }
  }

  function Fitting(v: int, limit: nat): Option<int> {
    if 0 - limit - 1 <= v <= limit then Some(v) else None
  }

  lemma ParseUnsigned(number: Bytes, digits: Bytes, limit: nat)
    requires digits != [] && AllDigits(digits) && DigitRun(number) == |digits| && number[..|digits|] == digits
    ensures ParseInt(number, limit) == Fitting(Value(digits), limit)
  {
    hide DigitRun, Value, AllDigits;
    assert IsDigit(digits[0]) && number[0] == digits[0] by { FirstDigit(digits); }
  }

  lemma FirstDigit(digits: Bytes)
    requires digits != [] && AllDigits(digits)
    ensures IsDigit(digits[0])
  {
  }

  lemma ParseSigned(sign: Wire.byte, number: Bytes, digits: Bytes, limit: nat)
    requires (sign == 43 || sign == 45) && digits != [] && AllDigits(digits)
    requires DigitRun(number) == |digits| && number[..|digits|] == digits
    ensures ParseInt([sign] + number, limit) == Fitting(if sign == 45 then 0 - Value(digits) else Value(digits), limit)
  {
    hide DigitRun, Value, AllDigits;
    var t := [sign] + number;
    assert t[0] == sign && t[1..] == number;
  }

  lemma ParseAfterBlanks(blanks: Bytes, t: Bytes, limit: nat)
    requires (forall i :: 0 <= i < |blanks| ==> IsBlank(blanks[i])) && t != [] && !IsBlank(t[0])
    ensures ParseInt(blanks + t, limit) == ParseInt(t, limit)
  {
    SkipsBlanks(blanks, t);
    SkipsBlanks([], t);
    assert [] + t == t;
    hide SkipSpaces, DigitRun, Value, AllDigits;
  }

  /** Blanks and a sign are read over, the digits up to the first other character give the value, which must fit. */
  lemma ParseIntReads(blanks: Bytes, sign: Bytes, digits: Bytes, rest: Bytes, limit: nat)
    requires forall i :: 0 <= i < |blanks| ==> IsBlank(blanks[i])
    requires (sign == [] || sign == [43] || sign == [45]) && digits != [] && AllDigits(digits)
    requires rest == [] || !IsDigit(rest[0])
    ensures ParseInt(blanks + (sign + (digits + rest)), limit) ==
            Fitting(if sign == [45] then 0 - Value(digits) else Value(digits), limit)
  {
    hide DigitRun, Value, AllDigits, ParseInt;
    var number := digits + rest;
    FirstDigit(digits);
    DigitRunOf(digits, rest);
    assert number[..|digits|] == digits && number[0] == digits[0];
    if sign == [] {
      assert sign + number == number;
      ParseUnsigned(number, digits, limit);
    } else {
      assert sign == [sign[0]];
      ParseSigned(sign[0], number, digits, limit);
    }
    ParseAfterBlanks(blanks, sign + number, limit);
  }

  // Without a digit there is no number.
  lemma ParseIntNeedsDigit(b: Bytes, limit: nat)
    requires forall i :: 0 <= i < |b| ==> !IsDigit(b[i])
    ensures ParseInt(b, limit) == None
  {
    SkippedFrom(b);
    var t := SkipSpaces(b);
    forall x | x in t ensures !IsDigit(x)
    {
      assert x in b;
    }
    hide SkipSpaces;
    if t != [] { assert t[0] in t; }
    if |t| > 1 { assert t[1] in t; }
  }

  lemma {:induction false} SkippedFrom(b: Bytes)
    ensures forall x :: x in SkipSpaces(b) ==> x in b
    decreases |b|
  {
    if b != [] && IsBlank(b[0]) { SkippedFrom(b[1..]); }
  }

  // ---------------------------------------------------------------- searching

  // The first position of a byte.
  function Find(b: Bytes, c: Wire.byte): (r: Option<nat>)
    ensures r.Some? ==> r.value < |b| && b[r.value] == c && c !in b[..r.value]
    ensures r.None? ==> c !in b
  {
    if b == [] then None
    else if b[0] == c then Some(0)
    else
      var r := Find(b[1..], c);
      if r.None? then None
      else
        assert b[..r.value + 1] == [b[0]] + b[1..][..r.value];
        Some(r.value + 1)
  }

  lemma FindAfter(a: Bytes, c: Wire.byte, rest: Bytes)
    requires c !in a
    ensures Find(a + [c] + rest, c) == Some(|a|)
  {
    var b := a + [c] + rest;
    assert b[|a|] == c && b[..|a|] == a;
  }

  predicate TagNineAt(b: Bytes, i: nat) {
    i + 2 < |b| && b[i] == SOH && b[i + 1] == 57 && b[i + 2] == EQUALS
  }

  // The first position of SOH "9=".
  function FindTagNine(b: Bytes, from: nat): (r: Option<nat>)
    ensures r.Some? ==> from <= r.value && TagNineAt(b, r.value) && forall i :: from <= i < r.value ==> !TagNineAt(b, i)
    ensures r.None? ==> forall i :: from <= i ==> !TagNineAt(b, i)
    decreases |b| - from
  {
    if from + 2 >= |b| then None
    else if TagNineAt(b, from) then Some(from)
    else FindTagNine(b, from + 1)
  }
}
