/** Number cells: what is printed, what is accepted, and the fast path between them. */
module Decimals {
  import opened Wrappers
  import opened Datalog

  type Byte = x: int | 0 <= x < 256

  type Bytes = seq<Byte>

  const PLUS: Byte := 43
  const MINUS: Byte := 45
  const ZERO: Byte := 48
  const NINE: Byte := 57

  const U64_MODULUS: int := MODULUS

  predicate IsDigit(b: Byte) {
    ZERO <= b <= NINE
  }

  predicate AllDigits(digits: Bytes) {
    forall i :: 0 <= i < |digits| ==> IsDigit(digits[i])
  }

  /** The number a run of digits spells. */
  function Number(digits: Bytes): (n: nat)
    requires AllDigits(digits)
  {
    if digits == [] then 0 else Number(digits[..|digits| - 1]) * 10 + (digits[|digits| - 1] - ZERO)
  }

  function PowerOfTen(n: nat): (p: nat)
    ensures p >= 1
  {
    if n == 0 then 1 else 10 * PowerOfTen(n - 1)
  }

  lemma {:induction false} NumberBound(digits: Bytes)
    requires AllDigits(digits)
    ensures Number(digits) < PowerOfTen(|digits|)
  {
    if digits != [] {
      NumberBound(digits[..|digits| - 1]);
    }
  }

  lemma {:induction false} PowerMonotone(m: nat, n: nat)
    requires m <= n
    ensures PowerOfTen(m) <= PowerOfTen(n)
  {
    if m < n {
      PowerMonotone(m, n - 1);
    }
  }

  /** No value of at most nineteen digits wraps around. */
  lemma NineteenDigits()
    ensures PowerOfTen(19) < U64_MODULUS
  {
    assert PowerOfTen(19) == 10_000_000_000_000_000_000 by {
      assert PowerOfTen(4) == 10_000;
      assert PowerOfTen(8) == 100_000_000;
      assert PowerOfTen(12) == 1_000_000_000_000;
      assert PowerOfTen(16) == 10_000_000_000_000_000;
    }
  }

  /** A sign and the digits after it. */
  function Signed(cell: Bytes): (bool, Bytes) {
    if cell != [] && cell[0] == MINUS then (true, cell[1..])
    else if cell != [] && cell[0] == PLUS then (false, cell[1..])
    else (false, cell)
  }

  /** The number a cell spells, if it is an optional sign and at least one digit, and in range: what the standard parser
      accepts. */
  function StandardParse(cell: Bytes): (r: Option<Val>)
    ensures r.Some? ==> VAL_MIN <= r.value <= VAL_MAX
  {
    var (negative, digits) := Signed(cell);
    if digits == [] || !AllDigits(digits) then
      None
    else
      var value: int := if negative then 0 - Number(digits) else Number(digits);
      if VAL_MIN <= value <= VAL_MAX then Some(value) else None
  }

  /** Adding one of at most nineteen digits gives the number of the longer prefix, below the modulus. */
  lemma AccumulatorFits(digits: Bytes, i: nat)
    requires i < |digits| <= 19 && AllDigits(digits[..i + 1])
    ensures AllDigits(digits[..i])
    ensures Number(digits[..i + 1]) == Number(digits[..i]) * 10 + (digits[i] - ZERO) < U64_MODULUS
  {
    var next := digits[..i + 1];
    assert next[..i] == digits[..i];
    NumberBound(next);
    PowerMonotone(i + 1, 19);
    NineteenDigits();
  }

  /** The fast path: at most nineteen digits, accumulated in 64 bits without ever overflowing. It accepts exactly the
      in-range spellings that short, with the standard parser's value. */
  method ParseDecimal(cell: Bytes) returns (r: Option<Val>)
    ensures r.Some? <==> StandardParse(cell).Some? && |Signed(cell).1| <= 19
    ensures r.Some? ==> r == StandardParse(cell)
  {
    if cell == [] {
      return None;
    }
    var negative := false;
    var digits: Bytes := cell;
    if cell[0] == MINUS {
      negative, digits := true, cell[1..];
    } else if cell[0] == PLUS {
      digits := cell[1..];
    }
    if digits == [] || |digits| > 19 {
      return None;
    }
    var value := 0;
    for i := 0 to |digits|
      invariant AllDigits(digits[..i]) && value == Number(digits[..i])
      invariant 0 <= value < U64_MODULUS
    {
      if !IsDigit(digits[i]) {
        assert !AllDigits(digits);
        return None;
      }
      // nothing wraps: the next value is below the modulus, too
      AccumulatorFits(digits, i);
      value := value * 10 + (digits[i] - ZERO);
    }
    assert digits[..|digits|] == digits;
    if negative {
      return if value <= VAL_MAX + 1 then Some(-value) else None;
    }
    return if value <= VAL_MAX then Some(value) else None;
  }

  /** A number cell: the fast path where it applies, the standard parser elsewhere - always the standard parser's
      answer. */
  method ParseNumberCell(cell: Bytes) returns (r: Option<Val>)
    ensures r == StandardParse(cell)
  {
    r := ParseDecimal(cell);
    if r.None? {
      r := StandardParse(cell);
    }
  }

  /* ------------------------------------------------------------------ */
  /* Printing                                                             */
  /* ------------------------------------------------------------------ */

  function Digits(n: nat): (digits: Bytes)
    ensures digits != [] && AllDigits(digits)
  {
    if n < 10 then [ZERO + n] else Digits(n / 10) + [ZERO + n % 10]
  }

  /** A number as it is written: a minus sign if negative, and digits without leading zeros. */
  function Printed(v: Val): (cell: Bytes)
    ensures cell != [] && (forall i :: 0 <= i < |cell| ==> IsDigit(cell[i]) || cell[i] == MINUS)
    ensures IsDigit(cell[|cell| - 1])
  {
    if v < 0 then [MINUS] + Digits(-v) else Digits(v)
  }

  lemma {:induction false} NumberOfDigits(n: nat)
    ensures Number(Digits(n)) == n
    ensures n >= 1 ==> PowerOfTen(|Digits(n)| - 1) <= n
  {
    if n < 10 {
      assert Digits(n)[..0] == [];
    } else {
      NumberOfDigits(n / 10);
      assert Digits(n)[..|Digits(n)| - 1] == Digits(n / 10);
    }
  }

  /** Printing and reading back gives every 64-bit value, the smallest included, by the fast path. */
  lemma PrintedParses(v: Val)
    requires VAL_MIN <= v <= VAL_MAX
    ensures StandardParse(Printed(v)) == Some(v) && |Signed(Printed(v)).1| <= 19
  {
    var n := if v < 0 then -v else v;
    NumberOfDigits(n);
    assert Signed(Printed(v)).1 == Digits(n) by {
      if v < 0 {
        assert ([MINUS] + Digits(n))[1..] == Digits(n);
      } else {
        assert IsDigit(Digits(n)[0]);
      }
    }
    if |Digits(n)| > 19 {
      PowerMonotone(19, |Digits(n)| - 1);
      TenToNineteen();
    }
  }

  lemma TenToNineteen()
    ensures PowerOfTen(19) > VAL_MAX + 1
  {
    assert PowerOfTen(4) == 10_000;
    assert PowerOfTen(8) == 100_000_000;
    assert PowerOfTen(12) == 1_000_000_000_000;
    assert PowerOfTen(16) == 10_000_000_000_000_000;
  }
}
