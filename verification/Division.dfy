/**
  Integer division in the traced network: the network's floor division, and the layers that
  replace the quotient and the two remainders of the traced program.
*/
module Division {
  import opened Wrappers

  function Abs(a: int): nat {
    if a < 0 then -a else a
  }

  /** The quotient rounded towards minus infinity. */
  function Floor(a: int, b: int): int
    requires b != 0
  {
    if b > 0 then a / b else (-a) / (-b)
  }

  function Times(a: int, b: int): int {
    a * b
  }

  /** `Floor` is the one quotient whose remainder has the sign of the divisor. */
  lemma FloorIsUnique(a: int, b: int, q: int)
    requires b != 0
    ensures q == Floor(a, b) <==> (var r := a - Times(q, b); if b > 0 then 0 <= r < b else b < r <= 0)
  {
    var n, d := if b > 0 then a else -a, Abs(b);
    assert a - Times(q, b) == if b > 0 then n - Times(q, d) else -(n - Times(q, d));
    QuotientIsUnique(n, d, q);
  }

  lemma QuotientIsUnique(n: int, d: int, q: int)
    requires d > 0
    ensures q == n / d <==> 0 <= n - Times(q, d) < d
  {
    var p := n / d;
    assert n == d * p + n % d;
    assert n - Times(q, d) == d * (p - q) + n % d;
    if q < p {
      assert d * (p - q) >= d by { ProductGrows(d, p - q); }
    } else if q > p {
      assert d * (q - p) >= d by { ProductGrows(d, q - p); }
    }
  }

  lemma ProductGrows(d: int, k: int)
    requires d > 0 && k > 0
    ensures d * k >= d
  {
  }

  /** The network's division layer on integers: the quotient rounded towards zero; nothing is
      promised for a zero divisor. */
  function Divide(a: int, b: int): Option<int> {
    if b == 0 then None
    else if (a < 0) == (b < 0) then Some(Abs(a) / Abs(b))
    else Some(-(Abs(a) / Abs(b)))
  }

  /** The network's floor division layer; nothing is promised for a zero divisor. */
  function FloorDivide(a: int, b: int): Option<int> {
    if b == 0 then None else Some(Floor(a, b))
  }

  /** The layers that replace a quotient: the sign of `ab`, as `ab / |ab|`, times `|a| // |b|`. */
  function LoweredQuotient(a: int, b: int): Option<int> {
    var product := Times(a, b);
    var sign := Divide(product, Abs(product));
    var size := FloorDivide(Abs(a), Abs(b));
    if sign.None? || size.None? then None else Some(Times(sign.value, size.value))
  }

  /** The layers that replace `torch.fmod`: `a` minus the lowered quotient times `b`. */
  function LoweredFmod(a: int, b: int): Option<int> {
    var q := LoweredQuotient(a, b);
    if q.None? then None else Some(a - Times(q.value, b))
  }

  /** The layers that replace the operator `%`: `a` minus the floor quotient times `b`. */
  function LoweredMod(a: int, b: int): Option<int> {
    var q := FloorDivide(a, b);
    if q.None? then None else Some(a - Times(q.value, b))
  }

  /** `r` is what truncating division of `a` by `b` leaves over: smaller than `b`, and of the sign of `a`. */
  predicate TruncatedRemainder(a: int, b: int, r: int) {
    Abs(r) < Abs(b) && (a >= 0 ==> r >= 0) && (a <= 0 ==> r <= 0)
  }

  lemma SignOfProduct(a: int, b: int)
    requires a != 0 && b != 0
    ensures Times(a, b) != 0
    ensures Divide(Times(a, b), Abs(Times(a, b))) == Some(if (a < 0) == (b < 0) then 1 else -1)
  {
    var p := Times(a, b);
    assert p != 0 && ((p < 0) == ((a < 0) != (b < 0)));
    assert Abs(p) / Abs(p) == 1 by { QuotientIsUnique(Abs(p), Abs(p), 1); }
  }

  /**
    The sign trick of the quotient has a defined result exactly when neither operand is zero; a
    zero dividend, for which the quotient is zero, makes it divide zero by zero.
  */
  lemma LoweredQuotientIsDefinedIff(a: int, b: int)
    ensures LoweredQuotient(a, b).Some? <==> a != 0 && b != 0
    ensures LoweredFmod(a, b).Some? <==> a != 0 && b != 0
  {
    if a != 0 && b != 0 {
      SignOfProduct(a, b);
    } else {
      assert Times(a, b) == 0;
    }
  }

  /** The lowered quotient and `torch.fmod` truncate towards zero. */
  lemma LoweredQuotientTruncates(a: int, b: int)
    requires a != 0 && b != 0
    ensures LoweredQuotient(a, b) == Divide(a, b)
    ensures LoweredFmod(a, b).Some? && TruncatedRemainder(a, b, LoweredFmod(a, b).value)
  {
    SignOfProduct(a, b);
    var size := Abs(a) / Abs(b);
    assert Floor(Abs(a), Abs(b)) == size;
    QuotientIsUnique(Abs(a), Abs(b), size);
    var q := if (a < 0) == (b < 0) then size else -size;
    assert LoweredQuotient(a, b) == Some(q);
    assert Times(q, b) == if a < 0 then -Times(size, Abs(b)) else Times(size, Abs(b));
  }

  /** Truncation towards zero leaves only one remainder. */
  lemma TruncatedQuotientIsUnique(a: int, b: int, q: int)
    requires a != 0 && b != 0
    ensures Divide(a, b) == Some(q) <==> TruncatedRemainder(a, b, a - Times(q, b))
  {
    var p := if (a < 0) == (b < 0) then q else -q;
    var r := Abs(a) - Times(p, Abs(b));
    QuotientIsUnique(Abs(a), Abs(b), p);
    SignedProduct(p, a, b);
    assert a - Times(q, b) == if a < 0 then -r else r;
    assert TruncatedRemainder(a, b, a - Times(q, b)) <==> 0 <= r < Abs(b);
  }

  lemma SignedProduct(p: int, a: int, b: int)
    requires b != 0
    ensures Times(if (a < 0) == (b < 0) then p else -p, b) == if a < 0 then -Times(p, Abs(b)) else Times(p, Abs(b))
  {
  }

  /**
    The lowered quotient is the floor quotient exactly when the signs of the operands are equal or
    the division leaves nothing over; then the two lowered remainders are equal too.
  */
  lemma TruncationIsFloorIff(a: int, b: int)
    requires a != 0 && b != 0
    ensures LoweredQuotient(a, b) == FloorDivide(a, b) <==> (a < 0) == (b < 0) || LoweredMod(a, b) == Some(0)
    ensures LoweredFmod(a, b) == LoweredMod(a, b) <==> (a < 0) == (b < 0) || LoweredMod(a, b) == Some(0)
  {
    LoweredQuotientTruncates(a, b);
    FloorIsUnique(a, b, Floor(a, b));
    TruncatedQuotientIsUnique(a, b, Floor(a, b));
    var q := LoweredQuotient(a, b).value;
    if Times(q, b) == Times(Floor(a, b), b) {
      TimesIsInjective(q, Floor(a, b), b);
    }
  }

  lemma TimesIsInjective(p: int, q: int, b: int)
    requires b != 0 && Times(p, b) == Times(q, b)
    ensures p == q
  {
    assert (p - q) * b == 0;
  }

  /** The lowered `%` is defined exactly for divisors other than zero, and has their sign. */
  lemma LoweredModFollowsDivisor(a: int, b: int)
    ensures LoweredMod(a, b).Some? <==> b != 0
    ensures b > 0 ==> 0 <= LoweredMod(a, b).value < b
    ensures b < 0 ==> b < LoweredMod(a, b).value <= 0
  {
    if b != 0 {
      FloorIsUnique(a, b, Floor(a, b));
    }
  }
}
