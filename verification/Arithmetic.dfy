/** Integer facts the pricing code leans on: powers of ten, floor and truncating division. */
module Arithmetic {

  const U64: int := 0x1_0000_0000_0000_0000
  const U128: int := 0x1_0000_0000_0000_0000_0000_0000_0000_0000
  const I64: int := 0x8000_0000_0000_0000

  function Pow10(n: nat): (r: nat)
    ensures r >= 1
  {
    if n == 0 then 1 else 10 * Pow10(n - 1)
  }

  function Max(a: int, b: int): int {
    if a >= b then a else b
  }

  function Min(a: int, b: int): int {
    if a <= b then a else b
  }

  function Distance(a: int, b: int): nat {
    if a >= b then a - b else b - a
  }

  /** Division that rounds towards zero, as BigInt and Rust's signed integers do. */
  function TruncDiv(n: int, d: int): (q: int)
    requires d != 0
  {
    if n >= 0 then n / d else -(-n / d)
  }

  lemma {:induction false} Pow10Add(a: nat, b: nat)
    ensures Pow10(a + b) == Pow10(a) * Pow10(b)
  {
    if a == 0 {
    } else {
      Pow10Add(a - 1, b);
    }
  }

  lemma {:induction false} Pow10Monotone(a: nat, b: nat)
    requires a <= b
    ensures Pow10(a) <= Pow10(b)
  {
    if a == b {
    } else {
      Pow10Monotone(a, b - 1);
    }
  }

  lemma MulAssoc(a: int, b: int, c: int)
    ensures a * (b * c) == a * b * c
  {}

  lemma MulSwap(a: int, b: int, c: int)
    ensures a * b * c == a * c * b
  {}

  lemma MulAdd(a: int, b: int, c: int)
    ensures (a + b) * c == a * c + b * c
  {}

  lemma MulSub(a: int, b: int, c: int)
    ensures (a - b) * c == a * c - b * c
  {}

  lemma MulMonotone(a: int, b: int, c: int)
    requires a <= b && 0 <= c
    ensures a * c <= b * c
  {}

  lemma MulStrict(a: int, b: int, c: int)
    requires a < b && 0 < c
    ensures a * c < b * c
  {}

  lemma MulCancel(a: int, b: int, c: int)
    requires a * c <= b * c && 0 < c
    ensures a <= b
  {
    if a > b {
      MulStrict(b, a, c);
    }
  }

  lemma MulCancelStrict(a: int, b: int, c: int)
    requires a * c < b * c && 0 < c
    ensures a < b
  {
    if a >= b {
      MulMonotone(b, a, c);
    }
  }

  lemma FloorBounds(n: int, d: int)
    requires d > 0
    ensures n / d * d <= n < (n / d + 1) * d
  {}

  lemma FloorUnique(n: int, d: int, q: int)
    requires d > 0
    requires q * d <= n < (q + 1) * d
    ensures n / d == q
  {
    FloorBounds(n, d);
    MulCancelStrict(q, n / d + 1, d);
    MulCancelStrict(n / d, q + 1, d);
  }

  lemma FloorMonotone(m: int, n: int, d: int)
    requires d > 0 && m <= n
    ensures m / d <= n / d
  {
    FloorBounds(m, d);
    FloorBounds(n, d);
    MulCancelStrict(m / d, n / d + 1, d);
  }

  /** An integer lower bound on n / d is a bound on its floor. */
  lemma FloorAtLeast(n: int, d: int, q: int)
    requires d > 0 && q * d <= n
    ensures q <= n / d
  {
    FloorBounds(n, d);
    MulCancelStrict(q, n / d + 1, d);
  }

  lemma FloorBelow(n: int, d: int, q: int)
    requires d > 0 && n < q * d
    ensures n / d < q
  {
    FloorBounds(n, d);
    MulCancelStrict(n / d, q, d);
  }

  lemma FloorAtLeastIff(n: int, d: int, q: int)
    requires d > 0
    ensures q <= n / d <==> q * d <= n
  {
    if q * d <= n {
      FloorAtLeast(n, d, q);
    } else {
      FloorBelow(n, d, q);
    }
  }

  /** Division that rounds up. */
  function CeilDiv(n: nat, d: nat): nat
    requires d > 0
  {
    FloorAtLeast(n + d - 1, d, 0);
    (n + d - 1) / d
  }

  /** The ceiling of n / d is the least q whose multiple q * d reaches n. */
  lemma CeilAtMostIff(n: nat, d: nat, q: nat)
    requires d > 0
    ensures CeilDiv(n, d) <= q <==> n <= q * d
  {
    MulAdd(q, 1, d);
    FloorAtLeastIff(n + d - 1, d, q + 1);
  }

  /** Two staged floors are one floor of the combined quotient. */
  lemma FloorOfFloor(n: int, a: int, b: int)
    requires a > 0 && b > 0
    ensures a * b > 0
    ensures n / a / b == n / (a * b)
  {
    var q := n / a / b;
    assert a * b > 0;
    FloorBounds(n, a);
    FloorBounds(n / a, b);
    calc {
      q * (a * b);
      (q * b) * a;
    <= { MulMonotone(q * b, n / a, a); }
      n / a * a;
    <=
      n;
    }
    calc {
      n + 1;
    <=
      (n / a + 1) * a;
    <= { MulMonotone(n / a + 1, (q + 1) * b, a); }
      ((q + 1) * b) * a;
      (q + 1) * (a * b);
    }
    FloorUnique(n, a * b, q);
  }

  lemma Pow10Of38()
    ensures Pow10(38) == 100_000_000_000_000_000_000_000_000_000_000_000_000
  {
    Pow10Of19();
    Pow10Add(19, 19);
  }

  lemma Pow10Of19()
    ensures Pow10(19) == 10_000_000_000_000_000_000
  {
    assert Pow10(4) == 10_000;
    assert Pow10(8) == 100_000_000;
    assert Pow10(12) == 1_000_000_000_000;
    assert Pow10(16) == 10_000_000_000_000_000;
  }

  /** The powers of ten that a u128 holds. */
  lemma Pow10Fits(n: nat)
    ensures Pow10(n) < U128 <==> n <= 38
  {
    Pow10Of38();
    assert Pow10(39) == 10 * Pow10(38);
    if n <= 38 {
      Pow10Monotone(n, 38);
    } else {
      Pow10Monotone(39, n);
    }
  }
}
