/** The laws of 64-bit cells: what the operators compute, told by how they relate and not by how they are written. */
module WordLaws {
  import opened Wrappers
  import opened Datalog

  /** A 64-bit value. */
  predicate IsWord(a: Val) {
    VAL_MIN <= a <= VAL_MAX
  }

  /* ------------------------------------------------------------------ */
  /* Wrapping                                                             */
  /* ------------------------------------------------------------------ */

  /** Wrapping takes off whole turns. */
  lemma WrapTurns(x: int) returns (k: int)
    ensures x == Wrap(x) + k * MODULUS
  {
    k := (x - VAL_MIN) / MODULUS;
  }

  /** Whole turns do not matter. */
  lemma WrapShift(x: int, k: int)
    ensures Wrap(x + k * MODULUS) == Wrap(x)
  {
    var q, r := (x - VAL_MIN) / MODULUS, (x - VAL_MIN) % MODULUS;
    assert x + k * MODULUS - VAL_MIN == (q + k) * MODULUS + r;
  }

  lemma WrapSum(x: int, y: int)
    ensures Wrap(Wrap(x) + y) == Wrap(x + y)
  {
    var k := WrapTurns(x);
    WrapShift(Wrap(x) + y, k);
  }

  lemma WrapProduct(x: int, y: int)
    ensures Wrap(Wrap(x) * y) == Wrap(x * y)
  {
    var k := WrapTurns(x);
    Distributed(Wrap(x), k * MODULUS, y);
    assert k * MODULUS * y == (k * y) * MODULUS;
    WrapShift(Wrap(x) * y, k * y);
  }

  lemma Distributed(a: int, b: int, c: int)
    ensures (a + b) * c == a * c + b * c && c * (a + b) == c * a + c * b
  {
  }

  /* ------------------------------------------------------------------ */
  /* The operators                                                        */
  /* ------------------------------------------------------------------ */

  /** An operator has a 64-bit result unless it divides by zero. */
  lemma ApplyDefined(operator: ArithmeticOperator, a: Val, b: Val)
    ensures Apply(operator, a, b).None? <==> b == 0 && (operator.Divide? || operator.Modulo?)
    ensures Apply(operator, a, b).Some? ==> IsWord(Apply(operator, a, b).value)
  {
  }

  /** Adding is commutative, and 0 adds nothing. */
  lemma PlusLaws(a: Val, b: Val)
    requires IsWord(a) && IsWord(b)
    ensures Apply(Plus, a, b) == Apply(Plus, b, a) && Apply(Plus, a, 0) == Some(a)
  {
  }

  lemma SumTwice(a: int, b: int, c: int)
    ensures Wrap(Wrap(a + b) + c) == Wrap(a + b + c) && Wrap(a + Wrap(b + c)) == Wrap(a + b + c)
  {
    WrapSum(a + b, c);
    WrapSum(b + c, a);
    assert a + Wrap(b + c) == Wrap(b + c) + a && b + c + a == a + b + c;
  }

  /** Adding is associative. */
  lemma PlusAssociates(a: Val, b: Val, c: Val)
    requires IsWord(a) && IsWord(b) && IsWord(c)
    ensures Apply(Plus, Apply(Plus, a, b).value, c) == Apply(Plus, a, Apply(Plus, b, c).value)
  {
    SumTwice(a, b, c);
  }

  /** Adding 1 gives the next value; after the greatest comes the least. */
  lemma PlusOne(a: Val)
    requires IsWord(a)
    ensures Apply(Plus, a, 1) == Some(if a == VAL_MAX then VAL_MIN else a + 1)
  {
  }

  /** Subtracting undoes adding, with the subtrahend on the right. */
  lemma MinusLaws(a: Val, b: Val)
    requires IsWord(a) && IsWord(b)
    ensures Apply(Plus, Apply(Minus, a, b).value, b) == Some(a) && Apply(Minus, Apply(Plus, a, b).value, b) == Some(a)
  {
    WrapSum(a - b, b);
    WrapSum(a + b, -b);
  }

  /** Multiplying is commutative, and 1 is neutral. */
  lemma MultiplyLaws(a: Val, b: Val)
    requires IsWord(a) && IsWord(b)
    ensures Apply(Multiply, a, 1) == Some(a) && Apply(Multiply, a, b) == Apply(Multiply, b, a)
  {
    assert a * b == b * a;
  }

  lemma ProductOfSum(a: int, b: int, c: int)
    ensures Wrap(Wrap(a + b) * c) == Wrap(Wrap(a * c) + Wrap(b * c))
  {
    WrapProduct(a + b, c);
    Distributed(a, b, c);
    SumOfWraps(a * c, b * c);
  }

  lemma SumOfWraps(x: int, y: int)
    ensures Wrap(Wrap(x) + Wrap(y)) == Wrap(x + y)
  {
    WrapSum(x, Wrap(y));
    SumTwice(x, y, 0);
  }

  /** Multiplying distributes over adding. */
  lemma MultiplyDistributes(a: Val, b: Val, c: Val)
    requires IsWord(a) && IsWord(b) && IsWord(c)
    ensures Apply(Multiply, Apply(Plus, a, b).value, c)
      == Apply(Plus, Apply(Multiply, a, c).value, Apply(Multiply, b, c).value)
  {
    ProductOfSum(a, b, c);
  }

  /** The remainder is less than the divisor, and is zero or has the dividend's sign. */
  predicate RemainderOf(a: int, b: int, r: int) {
    (if b > 0 then -b < r < b else b < r < -b) && (r == 0 || (r > 0 <==> a > 0))
  }

  function Size(a: int): (n: int)
    ensures n >= 0
  {
    if a >= 0 then a else -a
  }

  /** The quotient is that of the sizes, negative when the signs differ. */
  lemma TruncatedSize(a: int, b: int)
    requires b != 0
    ensures TruncatedQuotient(a, b) == if a >= 0 <==> b > 0 then Size(a) / Size(b) else -(Size(a) / Size(b))
  {
  }

  lemma AtLeastOne(d: int, b: int)
    requires b != 0
    ensures d != 0 ==> d * b >= Size(b) || d * b <= -Size(b)
  {
  }

  lemma SizeDivides(n: int, d: int)
    requires n >= 0 && d > 0
    ensures n == n / d * d + n % d && 0 <= n % d < d && n / d >= 0
  {
  }

  lemma TwiceAtMost(q: int, d: int)
    requires q >= 0 && d >= 2
    ensures 2 * q <= q * d
  {
  }

  lemma QuotientSize(n: int, d: int, q: int, r: int)
    requires d > 0 && q >= 0 && r >= 0 && n == q * d + r
    ensures q <= n && (d > 1 ==> 2 * q <= n)
  {
    if d > 1 {
      TwiceAtMost(q, d);
    }
  }

  /** Quotient and remainder of the whole numbers. */
  lemma Truncation(a: int, b: int)
    requires b != 0
    ensures RemainderOf(a, b, a - b * TruncatedQuotient(a, b))
    ensures IsWord(a) && IsWord(b) && !(a == VAL_MIN && b == -1) ==> IsWord(TruncatedQuotient(a, b))
  {
    TruncatedSize(a, b);
    SizeDivides(Size(a), Size(b));
    TruncationOf(a, b, Size(a) / Size(b), Size(a) % Size(b), TruncatedQuotient(a, b));
  }

  lemma TruncationOf(a: int, b: int, q: int, r: int, quotient: int)
    requires b != 0 && q >= 0 && r >= 0 && Size(a) == q * Size(b) + r && r < Size(b) && quotient == if a >= 0 <==> b > 0 then q else -q
    ensures RemainderOf(a, b, a - b * quotient)
    ensures IsWord(a) && IsWord(b) && !(a == VAL_MIN && b == -1) ==> IsWord(quotient)
  {
    QuotientSize(Size(a), Size(b), q, r);
    SignedProduct(a, b, q);
    assert a - b * quotient == if a >= 0 then r else -r;
  }

  lemma SignedProduct(a: int, b: int, q: int)
    requires b != 0
    ensures b * (if a >= 0 <==> b > 0 then q else -q) == if a >= 0 then q * Size(b) else -(q * Size(b))
  {
  }

  /** Dividing by anything but zero: quotient times divisor plus remainder is the dividend, the least value by -1
      included, and the remainder is a remainder. */
  lemma DivideLaws(a: Val, b: Val)
    requires IsWord(a) && IsWord(b) && b != 0
    ensures Apply(Divide, a, b).Some? && Apply(Modulo, a, b).Some?
    ensures RemainderOf(a, b, Apply(Modulo, a, b).value)
    ensures Apply(Plus, Apply(Multiply, Apply(Divide, a, b).value, b).value, Apply(Modulo, a, b).value) == Some(a)
    ensures !(a == VAL_MIN && b == -1) ==> Apply(Divide, a, b).value * b + Apply(Modulo, a, b).value == a
    ensures a == VAL_MIN && b == -1 ==> Apply(Divide, a, b) == Some(VAL_MIN)
  {
    var q, r := TruncatedQuotient(a, b), a - b * TruncatedQuotient(a, b);
    Truncation(a, b);
    assert Apply(Modulo, a, b) == Some(r) && q * b + r == a;
    WrapProduct(q, b);
    WrapSum(q * b, r);
  }

  /** There is only one such quotient and remainder. */
  lemma QuotientUnique(a: int, b: int, q: int, r: int, q': int, r': int)
    requires b != 0 && q * b + r == a == q' * b + r' && RemainderOf(a, b, r) && RemainderOf(a, b, r')
    ensures q == q' && r == r'
  {
    var d := q - q';
    assert d * b == r' - r;
    AtLeastOne(d, b);
  }

  /* ------------------------------------------------------------------ */
  /* Comparing                                                            */
  /* ------------------------------------------------------------------ */

  /** Of two values exactly one of less, equal and greater holds, and the other operators are their complements. */
  lemma CompareLaws(a: Val, b: Val)
    ensures CompareInts(a, LessThan, b) || CompareInts(a, Equals, b) || CompareInts(a, GreaterThan, b)
    ensures !(CompareInts(a, LessThan, b) && CompareInts(a, Equals, b))
    ensures !(CompareInts(a, Equals, b) && CompareInts(a, GreaterThan, b))
    ensures !(CompareInts(a, LessThan, b) && CompareInts(a, GreaterThan, b))
    ensures CompareInts(a, GreaterThan, b) <==> CompareInts(b, LessThan, a)
    ensures CompareInts(a, Equals, b) <==> a == b
    ensures CompareInts(a, NotEquals, b) <==> !CompareInts(a, Equals, b)
    ensures CompareInts(a, GreaterEqualThan, b) <==> !CompareInts(a, LessThan, b)
    ensures CompareInts(a, LessEqualThan, b) <==> !CompareInts(a, GreaterThan, b)
  {
  }

  /** Less is the order of the values: from each to the next by adding 1, and transitive. */
  lemma LessLaws(a: Val, b: Val, c: Val)
    requires IsWord(a) && IsWord(b) && IsWord(c)
    ensures a != VAL_MAX ==> CompareInts(a, LessThan, Apply(Plus, a, 1).value)
    ensures CompareInts(a, LessThan, b) && CompareInts(b, LessThan, c) ==> CompareInts(a, LessThan, c)
  {
    PlusOne(a);
  }

  /* ------------------------------------------------------------------ */
  /* Expressions                                                          */
  /* ------------------------------------------------------------------ */

  lemma {:induction false} TermsLast<T>(result: Val, rest: seq<Term<T>>, last: Term<T>, env: T -> Val)
    ensures EvaluateTerms(result, rest + [last], env) ==
      var before := EvaluateTerms(result, rest, env);
      if before.None? then None else Apply(last.operator, before.value, FactorValue(last.factor, env))
    decreases |rest|
  {
    var all := rest + [last];
    if rest == [] {
      assert all[0] == last && all[1..] == [];
    } else {
      assert all[0] == rest[0] && all[1..] == rest[1..] + [last];
      var next := Apply(rest[0].operator, result, FactorValue(rest[0].factor, env));
      if next.Some? {
        TermsLast(next.value, rest[1..], last, env);
      }
    }
  }

  /** An expression is its first operand's value; each further term applies its operator to the value of the expression
      before it, with that value on the left, and after a zero divisor there is none. */
  lemma EvaluateLast<T>(a: Arithmetic<T>, last: Term<T>, env: T -> Val)
    ensures Evaluate(Arithmetic(a.init, []), env) == Some(FactorValue(a.init, env))
    ensures Evaluate(Arithmetic(a.init, a.rest + [last]), env) ==
      var before := Evaluate(a, env);
      if before.None? then None else Apply(last.operator, before.value, FactorValue(last.factor, env))
  {
    TermsLast(FactorValue(a.init, env), a.rest, last, env);
  }
}
