/** Bytes, and the decimal conversions of shared/utilities.go. */
module Utilities {

  newtype byte = x: int | 0 <= x < 256
  type bytes = seq<byte>

  datatype Option<T> = None | Some(value: T)

  predicate NoDuplicates<T(==)>(s: seq<T>) { forall i, j :: 0 <= i < j < |s| ==> s[i] != s[j] }

  predicate Prefix(a: bytes, b: bytes) { |a| <= |b| && b[..|a|] == a }

  /** bytes.Index and strings.Index: the first position of `part`, or -1. */
  function Index(data: bytes, part: bytes): (r: int)
    ensures -1 <= r <= |data|
    ensures r >= 0 ==> Prefix(part, data[r..]) && forall i :: 0 <= i < r ==> !Prefix(part, data[i..])
    ensures r < 0 ==> forall i :: 0 <= i <= |data| ==> !Prefix(part, data[i..])
  {
    if Prefix(part, data) then 0
    else if data == [] then -1
    else
      var r := Index(data[1..], part);
      assert forall i :: 1 <= i <= |data| ==> data[i..] == data[1..][i - 1..];
      if r < 0 then -1 else r + 1
  }

  lemma Associative<T>(a: seq<T>, b: seq<T>, c: seq<T>)
    ensures a + b + c == a + (b + c)
  {
  }

  const UINT64 := 0x1_0000_0000_0000_0000
  const INT64_LIMIT := 0x8000_0000_0000_0000

  /** Go's conversion of a uint64 to a (64 bit) int. */
  function ToInt(n: nat): (r: int)
    requires n < UINT64
    ensures -INT64_LIMIT <= r < INT64_LIMIT
    ensures 0 <= r <==> n < INT64_LIMIT
  {
    if n < INT64_LIMIT then n else n - UINT64
  }

  predicate IsDigit(b: byte) { 48 <= b <= 57 }

  predicate AllDigits(s: bytes) { forall i :: 0 <= i < |s| ==> IsDigit(s[i]) }

  /** The number a string of decimal digits denotes. */
  function Number(digits: bytes): nat
    requires AllDigits(digits)
  {
    if digits == [] then 0
    else 10 * Number(digits[..|digits| - 1]) + (digits[|digits| - 1] as int - 48)
  }

  /** The decimal digits of a number, most significant first. */
  function Decimal(n: nat): (digits: bytes)
    ensures |digits| > 0 && AllDigits(digits)
  {
    if n < 10 then [(48 + n) as byte]
    else Decimal(n / 10) + [(48 + n % 10) as byte]
  }

  lemma {:induction false} NumberOfDecimal(n: nat)
    ensures Number(Decimal(n)) == n
  {
    if n >= 10 {
      NumberOfDecimal(n / 10);
      assert Decimal(n)[..|Decimal(n)| - 1] == Decimal(n / 10);
    }
  }

  /** How many digits a buffer starts with. */
  function DigitRun(s: bytes): (n: nat)
    ensures n <= |s| && forall i :: 0 <= i < n ==> IsDigit(s[i])
    ensures n < |s| ==> !IsDigit(s[n])
  {
    if s == [] || !IsDigit(s[0]) then 0
    else
      assert forall i :: 1 <= i < |s| ==> s[i] == s[1..][i - 1];
      1 + DigitRun(s[1..])
  }

  lemma {:induction false} DigitRunUnique(s: bytes, n: nat)
    requires n <= |s| && AllDigits(s[..n]) && (n < |s| ==> !IsDigit(s[n]))
    ensures DigitRun(s) == n
  {
    if n > 0 {
      assert s[0] == s[..n][0];
      assert s[1..][..n - 1] == s[..n][1..];
      DigitRunUnique(s[1..], n - 1);
    }
  }

  /** What Btoi returns: value modulo 2^64 and length of the leading digits. */
  function Parsed(buffer: bytes): (nat, nat) {
    (Number(buffer[..DigitRun(buffer)]) % UINT64, DigitRun(buffer))
  }

  lemma ModStep(a: nat, d: nat)
    ensures (10 * (a % UINT64) + d) % UINT64 == (10 * a + d) % UINT64
  {
    var q := a / UINT64;
    assert a == UINT64 * q + a % UINT64;
    assert 10 * a + d == UINT64 * (10 * q) + (10 * (a % UINT64) + d);
    ModAddMultiple(10 * (a % UINT64) + d, 10 * q);
  }

  lemma {:induction false} ModAddMultiple(x: nat, k: nat)
    ensures (UINT64 * k + x) % UINT64 == x % UINT64
  {
    if k > 0 {
      ModAddMultiple(x, k - 1);
      assert UINT64 * k + x == (UINT64 * (k - 1) + x) + UINT64;
    }
  }

  method Btoi(buffer: bytes) returns (number: nat, index: nat)
    ensures (number, index) == Parsed(buffer)
  {
    number, index := 0, 0;
    while index < |buffer| && IsDigit(buffer[index])
      invariant index <= |buffer| && AllDigits(buffer[..index])
      invariant number == Number(buffer[..index]) % UINT64
    {
      var parsed := buffer[index] as int - 48;
      ModStep(Number(buffer[..index]), parsed);
      assert buffer[..index + 1][..index] == buffer[..index];
      number := (number * 10 + parsed) % UINT64;
      index := index + 1;
    }
    DigitRunUnique(buffer, index);
  }

  /** Parsing undoes printing, whatever follows the digits. */
  lemma BtoiInvertsDecimal(n: nat, rest: bytes)
    requires n < UINT64 && (rest == [] || !IsDigit(rest[0]))
    ensures Parsed(Decimal(n) + rest) == (n, |Decimal(n)|)
  {
    var s := Decimal(n) + rest;
    NumberOfDecimal(n);
    assert s[..|Decimal(n)|] == Decimal(n);
    DigitRunUnique(s, |Decimal(n)|);
  }

  /** Printing undoes parsing exactly for digit strings without a leading zero. */
  lemma {:induction false} DecimalInvertsNumber(digits: bytes)
    requires |digits| > 0 && AllDigits(digits)
    ensures Decimal(Number(digits)) == digits <==> |digits| == 1 || digits[0] != 48
  {
    var last := |digits| - 1;
    if last > 0 {
      var init := digits[..last];
      DecimalInvertsNumber(init);
      NumberPositive(init);
      assert digits == init + [digits[last]];
      if digits[0] != 48 {
        assert Number(digits) / 10 == Number(init) && Number(digits) % 10 == digits[last] as int - 48;
      } else {
        DecimalFirst(Number(digits));
      }
    }
  }

  lemma {:induction false} NumberPositive(digits: bytes)
    requires |digits| > 0 && AllDigits(digits)
    ensures digits[0] != 48 ==> Number(digits) > 0
  {
    if |digits| > 1 { NumberPositive(digits[..|digits| - 1]); }
  }

  /** Only the number zero is printed with a leading zero. */
  lemma {:induction false} DecimalFirst(n: nat)
    ensures Decimal(n)[0] == 48 ==> n == 0 && Decimal(n) == [48]
  {
    if n >= 10 { DecimalFirst(n / 10); }
  }

  lemma LastDigit(n: nat)
    ensures Decimal(n)[|Decimal(n)| - 1] == (48 + n % 10) as byte
    ensures if n < 10 then |Decimal(n)| == 1 else Decimal(n / 10) == Decimal(n)[..|Decimal(n)| - 1]
  {
  }

  /** The digits stand at the end of the buffer; those in front do not fit if there are too many. */
  predicate Printed(before: bytes, after: bytes, digits: bytes, ok: bool) {
    if ok then |digits| <= |before| && after == before[..|before| - |digits|] + digits
    else |digits| > |before| && after == digits[|digits| - |before|..]
  }

  lemma AllPrinted(before: bytes, after: bytes, digits: bytes)
    requires |after| == |before| >= |digits|
    requires forall j :: 0 <= j < |before| - |digits| ==> after[j] == before[j]
    requires forall j :: |before| - |digits| <= j < |before| ==> after[j] == digits[j - (|before| - |digits|)]
    ensures Printed(before, after, digits, true)
  {
  }

  lemma LowDigitsPrinted(before: bytes, after: bytes, digits: bytes)
    requires |after| == |before| < |digits|
    requires forall j :: 0 <= j < |before| ==> after[j] == digits[|digits| - |before| + j]
    ensures Printed(before, after, digits, false)
  {
  }

  /** Itobe fills the end of the buffer with the digits; a buffer too small for the number
      gets its low digits and an error. */
  method Itobe(number: nat, buffer: array<byte>) returns (ok: bool)
    modifies buffer
    ensures Printed(old(buffer[..]), buffer[..], Decimal(number), ok)
  {
    hide Decimal, Printed;
    ghost var all, was := Decimal(number), buffer[..];
    ghost var left := |all|;
    var n, i := number, buffer.Length - 1;
    while i >= 0
      invariant -1 <= i < buffer.Length && left == |all| - (buffer.Length - 1 - i) > 0
      invariant Decimal(n) == all[..left]
      invariant forall j :: i < j < buffer.Length ==> buffer[j] == all[left + j - i - 1]
      invariant forall j :: 0 <= j <= i ==> buffer[j] == was[j]
    {
      buffer[i] := (48 + n % 10) as byte;
      LastDigit(n);
      assert all[..left][left - 1] == all[left - 1] && all[..left][..left - 1] == all[..left - 1];
      if n / 10 == 0 {
        AllPrinted(was, buffer[..], all);
        return true;
      }
      n, i, left := n / 10, i - 1, left - 1;
    }
    LowDigitsPrinted(was, buffer[..], all);
    ok := false;
  }
}
