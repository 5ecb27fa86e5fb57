/** Decimal printing and `i64::from_str_radix(_, 10)`, on the bytes the bencode library works on. */
module Decimal {
  import opened Basics

  const I64_MIN: int := -0x8000_0000_0000_0000
  const I64_MAX: int := 0x7fff_ffff_ffff_ffff

  const PLUS: byte := 43
  const MINUS: byte := 45
  const ZERO: byte := 48

  predicate IsDigit(b: byte) {
    ZERO <= b <= ZERO + 9
  }

  predicate AllDigits(s: seq<byte>) {
    forall i :: 0 <= i < |s| ==> IsDigit(s[i])
  }

  function Digits(n: nat): (r: seq<byte>)
    ensures r != [] && AllDigits(r)
    ensures r[0] == ZERO ==> n == 0 && r == [ZERO]
  {
    if n < 10 then [ZERO + n] else Digits(n / 10) + [ZERO + n % 10]
  }

  /** `i64::to_string`. */
  function ToString(n: int): (r: seq<byte>)
    ensures r != []
  {
    if n < 0 then [MINUS] + Digits(-n) else Digits(n)
  }

  function DigitsValue(s: seq<byte>): nat
    requires AllDigits(s)
  {
    if s == [] then 0 else DigitsValue(s[..|s| - 1]) * 10 + (s[|s| - 1] - ZERO)
  }

  /** `i64::from_str_radix(_, 10)`: an optional sign, at least one digit, and a value in range. */
  function ParseI64(s: seq<byte>): Option<int> {
    var negative := s != [] && s[0] == MINUS;
    var digits := if s != [] && (s[0] == MINUS || s[0] == PLUS) then s[1..] else s;
    if digits == [] || !AllDigits(digits) then None
    else
      var magnitude: int := DigitsValue(digits);
      var n := if negative then -magnitude else magnitude;
      if I64_MIN <= n <= I64_MAX then Some(n) else None
  }

  lemma {:induction false} ValueOfDigits(n: nat)
    ensures DigitsValue(Digits(n)) == n
  {
    if n >= 10 {
      ValueOfDigits(n / 10);
      assert Digits(n)[..|Digits(n)| - 1] == Digits(n / 10);
    } else {
      assert [ZERO + n][..0] == [];
    }
  }

  /** Digits without a superfluous leading zero are what printing their value gives. */
  lemma {:induction false} DigitsOfValue(s: seq<byte>)
    requires s != [] && AllDigits(s) && (s[0] == ZERO ==> |s| == 1)
    ensures Digits(DigitsValue(s)) == s
    ensures DigitsValue(s) == 0 ==> s == [ZERO]
  {
    var front := s[..|s| - 1];
    if front == [] {
      assert s == [s[0]];
    } else {
      DigitsOfValue(front);
      assert s == front + [s[|s| - 1]];
      assert DigitsValue(front) > 0;
    }
  }

  /** Every 64-bit integer is read back as it was printed. */
  lemma ParsePrinted(n: int)
    requires I64_MIN <= n <= I64_MAX
    ensures ParseI64(ToString(n)) == Some(n)
  {
    var digits := Digits(if n < 0 then -n else n);
    ValueOfDigits(if n < 0 then -n else n);
    if n < 0 {
      assert ToString(n)[1..] == digits;
    } else {
      assert digits[0] != MINUS && digits[0] != PLUS;
    }
  }

  /** The text an integer or a length was read from, unless it has a sign or zeros too many. */
  lemma PrintParsed(s: seq<byte>)
    requires ParseI64(s).Some?
    requires s[0] != PLUS
    requires |s| > 1 ==> s[0] != ZERO && !(s[0] == MINUS && s[1] == ZERO)
    ensures ToString(ParseI64(s).value) == s
  {
    if s[0] == MINUS {
      DigitsOfValue(s[1..]);
      assert s == [MINUS] + s[1..];
    } else {
      DigitsOfValue(s);
    }
  }

  /** Every printed number is a sign or none and digits that do not begin with a needless zero. */
  lemma PrintedIsPlain(n: int)
    ensures var s := ToString(n);
            && (forall b :: b in s ==> b == MINUS || IsDigit(b))
            && (|s| > 1 ==> s[0] != ZERO && !(s[0] == MINUS && s[1] == ZERO))
  {
    if n < 0 { assert ToString(n)[1] == Digits(-n)[0]; }
  }
}
