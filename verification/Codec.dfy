/**
 * Little-endian and two's-complement byte codecs: the hand-written TypeScript helpers, Rust's
 * `from_le_bytes`, and the Pyth price account layout both keepers read.
 */
module Codec {
  import opened Wrappers
  import opened Arithmetic

  type Byte = b: int | 0 <= b < 256

  datatype Fault = TypeError | OutOfBounds

  function Pow256(n: nat): (r: nat)
    ensures r >= 1
  {
    if n == 0 then 1 else 256 * Pow256(n - 1)
  }

  // ---- specification ----

  /** The n low-order bytes of v, least significant first. */
  function Le(v: int, n: nat): (s: seq<Byte>)
    ensures |s| == n
    decreases n
  {
    if n == 0 then [] else [v % 256] + Le(v / 256, n - 1)
  }

  function Unsigned(s: seq<Byte>): nat {
    if s == [] then 0 else s[0] as int + 256 * Unsigned(s[1..])
  }

  /** Two's complement reading, as Rust's `from_le_bytes` on signed integers defines it. */
  function Signed(s: seq<Byte>): int {
    var u := Unsigned(s);
    if 2 * u < Pow256(|s|) then u else u - Pow256(|s|)
  }

  lemma {:induction false} LeIsModulo(v: int, n: nat)
    ensures Unsigned(Le(v, n)) == v % Pow256(n)
    decreases n
  {
    if n == 0 {
    } else {
      LeIsModulo(v / 256, n - 1);
      assert Le(v, n)[1..] == Le(v / 256, n - 1);
      NestedModulo(v, Pow256(n - 1));
    }
  }

  lemma NestedModulo(v: int, p: nat)
    requires p > 0
    ensures v % 256 + 256 * (v / 256 % p) == v % (256 * p)
  {
    var q := v / 256;
    var m, k := q % p, q / p;
    assert v == (256 * p) * k + (256 * m + v % 256);
    ModuloUnique(v, 256 * p, k, 256 * m + v % 256);
  }

  lemma ModuloUnique(v: int, d: nat, k: int, r: nat)
    requires v == d * k + r && r < d
    ensures v % d == r
  {
    FloorUnique(v, d, k);
    assert v / d * d + v % d == v;
  }

  /** Writing then reading is the identity on the n-byte signed range, and wraps into it elsewhere. */
  lemma SignedRoundTrip(v: int, n: nat)
    requires n > 0
    ensures (Signed(Le(v, n)) - v) % Pow256(n) == 0
    ensures 0 <= 2 * Signed(Le(v, n)) + Pow256(n) < 2 * Pow256(n)
    ensures 0 <= 2 * v + Pow256(n) < 2 * Pow256(n) ==> Signed(Le(v, n)) == v
  {
    LeIsModulo(v, n);
    SignedResidue(v, Pow256(n));
  }

  lemma SignedResidue(v: int, p: nat)
    requires p > 0
    ensures var u := v % p;
            var signed := if 2 * u < p then u else u - p;
            (signed - v) % p == 0
            && (0 <= 2 * v + p < 2 * p ==> signed == v)
  {
    var k := v / p;
    if 2 * (v % p) < p {
      ModuloUnique(v % p - v, p, -k, 0);
    } else {
      ModuloUnique(v % p - p - v, p, -k - 1, 0);
    }
    if 0 <= 2 * v + p < 2 * p {
      if v >= 0 {
        ModuloUnique(v, p, 0, v);
      } else {
        ModuloUnique(v, p, -1, v + p);
      }
    }
  }

  lemma {:induction false} LeOfWrapped(v: int, w: int, n: nat)
    requires (v - w) % Pow256(n) == 0
    ensures Le(v, n) == Le(w, n)
    decreases n
  {
    if n == 0 {
    } else {
      var p, k := Pow256(n - 1), (v - w) / Pow256(n);
      assert v == w + 256 * (p * k);
      assert v % 256 == w % 256 && v / 256 == w / 256 + p * k;
      ModuloUnique(v / 256 - w / 256, p, k, 0);
      LeOfWrapped(v / 256, w / 256, n - 1);
    }
  }

  // ---- the TypeScript helpers ----

  method WriteLe(v: int, n: nat) returns (o: array<Byte>)
    ensures fresh(o) && o[..] == Le(v, n)
  {
    o := new Byte[n];
    var x := v;
    for i := 0 to n
      invariant o[..i] + Le(x, n - i) == Le(v, n)
    {
      o[i] := x % 256;
      assert o[..i + 1] + Le(x / 256, n - i - 1) == o[..i] + Le(x, n - i);
      x := x / 256;
    }
  }

  function Flatten(parts: seq<seq<Byte>>): seq<Byte> {
    if parts == [] then [] else parts[0] + Flatten(parts[1..])
  }

  function TotalLength(parts: seq<seq<Byte>>): (n: nat)
    ensures n == |Flatten(parts)|
  {
    if parts == [] then 0 else |parts[0]| + TotalLength(parts[1..])
  }

  lemma {:induction false} FlattenConcat(a: seq<seq<Byte>>, b: seq<seq<Byte>>)
    ensures Flatten(a + b) == Flatten(a) + Flatten(b)
    decreases |a|
  {
    if a == [] {
      assert a + b == b;
    } else {
      assert (a + b)[1..] == a[1..] + b;
      FlattenConcat(a[1..], b);
    }
  }

  /** Copies the parts one behind the other into a buffer of their total length. */
  method Concat(parts: seq<seq<Byte>>) returns (out: array<Byte>)
    ensures fresh(out) && out[..] == Flatten(parts)
  {
    var total := 0;
    for i := 0 to |parts|
      invariant total == |Flatten(parts[..i])|
    {
      PrefixGrows(parts, i);
      total := total + |parts[i]|;
    }
    assert parts[..|parts|] == parts;
    out := new Byte[total];
    var k := 0;
    for i := 0 to |parts|
      invariant k == |Flatten(parts[..i])| <= total
      invariant out[..k] == Flatten(parts[..i])
    {
      PrefixGrows(parts, i);
      ghost var done := out[..k];
      forall j | 0 <= j < |parts[i]| {
        out[k + j] := parts[i][j];
      }
      assert out[..k + |parts[i]|] == done + parts[i];
      k := k + |parts[i]|;
    }
  }

  lemma {:induction false} PrefixGrows(parts: seq<seq<Byte>>, i: nat)
    requires i < |parts|
    ensures Flatten(parts[..i + 1]) == Flatten(parts[..i]) + parts[i]
    ensures |Flatten(parts[..i + 1])| <= |Flatten(parts)|
  {
    assert parts[..i + 1] == parts[..i] + [parts[i]] && parts == parts[..i + 1] + parts[i + 1..];
    FlattenConcat(parts[..i], [parts[i]]);
    FlattenConcat(parts[..i + 1], parts[i + 1..]);
    assert Flatten([parts[i]]) == parts[i] + Flatten([]);
  }

  /** Reading past the end of the buffer makes `BigInt(undefined)` throw. */
  method ReadI64(b: seq<Byte>, o: nat) returns (r: Result<int, Fault>)
    ensures r == if o + 8 <= |b| then Success(Signed(b[o..o + 8])) else Failure(TypeError)
  {
    var x: int := 0;
    var i := 7;
    while i >= 0
      invariant -1 <= i <= 7
      invariant i < 7 ==> o + 8 <= |b| && x == Unsigned(b[o + i + 1..o + 8])
      invariant i == 7 ==> x == 0
    {
      if o + i >= |b| {
        return Failure(TypeError);
      }
      if i == 7 {
        assert b[o + i..o + 8] == [b[o + 7]];
        assert Unsigned([b[o + 7]]) == b[o + 7] as int + 256 * Unsigned([]);
      } else {
        assert b[o + i..o + 8][1..] == b[o + i + 1..o + 8];
      }
      x := x * 256 + b[o + i] as int;
      i := i - 1;
    }
    var s := b[o..o + 8];
    TopBitIsSign(s);
    if b[o + 7] >= 128 {
      x := x - 0x1_0000_0000_0000_0000;
    }
    r := Success(x);
  }

  lemma {:induction false} UnsignedBelow(s: seq<Byte>)
    ensures Unsigned(s) < Pow256(|s|)
    decreases |s|
  {
    if s == [] {
    } else {
      UnsignedBelow(s[1..]);
    }
  }

  /** The top bit of the last byte decides the sign. */
  lemma {:induction false} TopByteDecides(s: seq<Byte>)
    requires s != []
    ensures 2 * Unsigned(s) < Pow256(|s|) <==> s[|s| - 1] < 128
    decreases |s|
  {
    if |s| == 1 {
      assert s[1..] == [];
      assert Pow256(1) == 256;
    } else {
      TopByteDecides(s[1..]);
      HalfIsEven(|s| - 1);
      LowByteIsSmall(s[0], Unsigned(s[1..]), Pow256(|s| - 1));
      assert s[1..][|s| - 2] == s[|s| - 1];
    }
  }

  /** The low byte does not decide on which side of one half a number lies. */
  lemma LowByteIsSmall(low: Byte, high: nat, p: nat)
    requires p % 2 == 0
    ensures 2 * (low as int + 256 * high) < 256 * p <==> 2 * high < p
  {
    if 2 * high < p {
      assert 2 * high <= p - 2;
    }
  }

  lemma HalfIsEven(n: nat)
    requires n > 0
    ensures Pow256(n) % 2 == 0
  {}

  lemma TopBitIsSign(s: seq<Byte>)
    requires |s| == 8
    ensures Signed(s) == if s[7] < 128 then Unsigned(s) else Unsigned(s) - 0x1_0000_0000_0000_0000
  {
    TopByteDecides(s);
    PowersOf256();
  }

  lemma PowersOf256()
    ensures Pow256(4) == 0x1_0000_0000
    ensures Pow256(8) == 0x1_0000_0000_0000_0000
  {
    assert Pow256(1) == 256;
    assert Pow256(2) == 0x1_0000;
    assert Pow256(3) == 0x100_0000;
    assert Pow256(4) == 0x1_0000_0000;
    assert Pow256(5) == 0x100_0000_0000;
    assert Pow256(6) == 0x1_0000_0000_0000;
    assert Pow256(7) == 0x100_0000_0000_0000;
  }

  /** A byte as the JavaScript bit operators see it: a missing one is zero. */
  function ByteOrZero(b: seq<Byte>, i: nat): Byte {
    if i < |b| then b[i] else 0
  }

  /** The four shifted bytes occupy disjoint bits, so their `|` is their sum, taken as a signed 32-bit value. */
  function ReadI32(b: seq<Byte>, o: nat): int {
    var u := ByteOrZero(b, o) as int + 0x100 * ByteOrZero(b, o + 1) as int + 0x1_0000 * ByteOrZero(b, o + 2) as int
             + 0x100_0000 * ByteOrZero(b, o + 3) as int;
    if u < 0x8000_0000 then u else u - 0x1_0000_0000
  }

  lemma ReadI32IsSigned(b: seq<Byte>, o: nat)
    requires o + 4 <= |b|
    ensures ReadI32(b, o) == Signed(b[o..o + 4])
  {
    var s := b[o..o + 4];
    UnsignedOfFour(s);
    PowersOf256();
  }

  lemma UnsignedOfFour(s: seq<Byte>)
    requires |s| == 4
    ensures Unsigned(s) == s[0] as int + 0x100 * s[1] as int + 0x1_0000 * s[2] as int + 0x100_0000 * s[3] as int
  {
    assert s[1..][1..] == s[2..] && s[2..][1..] == s[3..] && s[3..][1..] == [];
    assert Unsigned(s[3..]) == s[3] as int;
    assert Unsigned(s[2..]) == s[2] as int + 256 * Unsigned(s[3..]);
    assert Unsigned(s[1..]) == s[1] as int + 256 * Unsigned(s[2..]);
  }

  /** `le` followed by the readers is the identity on the signed 64-bit and 32-bit ranges. */
  lemma LeReadsBack(v: int)
    ensures -0x8000_0000_0000_0000 <= v < 0x8000_0000_0000_0000 ==> Signed(Le(v, 8)) == v
    ensures -0x8000_0000 <= v < 0x8000_0000 ==> ReadI32(Le(v, 4), 0) == v
  {
    PowersOf256();
    SignedRoundTrip(v, 8);
    SignedRoundTrip(v, 4);
    ReadI32IsSigned(Le(v, 4), 0);
    assert Le(v, 4)[0..4] == Le(v, 4);
  }

  // ---- the Pyth price account ----

  const PRICE_OFFSET := 73
  const EXPO_OFFSET := 89

  datatype Price = Price(price: int, expo: int)

  /** Rust: both slices are taken with bounds checks. */
  function RustReadPrice(data: seq<Byte>): Result<Price, Fault> {
    if |data| < EXPO_OFFSET + 4 then Failure(OutOfBounds)
    else Success(Price(Signed(data[PRICE_OFFSET..PRICE_OFFSET + 8]), Signed(data[EXPO_OFFSET..EXPO_OFFSET + 4])))
  }

  /** TypeScript: a missing price byte throws, a missing exponent byte reads as zero. */
  function TsPrice(data: seq<Byte>): Result<Price, Fault> {
    if |data| < PRICE_OFFSET + 8 then Failure(TypeError)
    else Success(Price(Signed(data[PRICE_OFFSET..PRICE_OFFSET + 8]), ReadI32(data, EXPO_OFFSET)))
  }

  /** Reads what Rust reads from every account that is long enough for Rust. */
  method TsReadPrice(data: seq<Byte>) returns (r: Result<Price, Fault>)
    ensures |data| >= EXPO_OFFSET + 4 ==> r == RustReadPrice(data)
    ensures PRICE_OFFSET + 8 <= |data| <= EXPO_OFFSET ==>
              r == Success(Price(Signed(data[PRICE_OFFSET..PRICE_OFFSET + 8]), 0))
    ensures r == TsPrice(data)
  {
    var price := ReadI64(data, PRICE_OFFSET);
    if price.Failure? {
      return Failure(price.error);
    }
    if |data| >= EXPO_OFFSET + 4 {
      ReadI32IsSigned(data, EXPO_OFFSET);
    }
    r := Success(Price(price.value, ReadI32(data, EXPO_OFFSET)));
  }

  /** The fields of the account the bootstrap script injects, in order. */
  function PriceParts(disc: seq<Byte>, feed: seq<Byte>, price: int, time: int): seq<seq<Byte>> {
    [disc, seq(32, _ => 0), [1], feed] + [Le(price, 8), Le(1, 8), Le(0xffff_fff8, 4)]
    + [Le(time, 8), Le(time, 8), Le(price, 8), Le(1, 8), Le(0, 8)]
  }

  /** Every 64-bit price written by the script is read back with exponent -8 at the offsets both keepers use. */
  lemma PriceRoundTrip(disc: seq<Byte>, feed: seq<Byte>, price: int, time: int)
    requires |disc| == 8 && |feed| == 32
    requires -0x8000_0000_0000_0000 <= price < 0x8000_0000_0000_0000
    ensures RustReadPrice(Flatten(PriceParts(disc, feed, price, time))) == Success(Price(price, -8))
  {
    PriceLayout(disc, feed, price, time);
    PowersOf256();
    SignedRoundTrip(price, 8);
    LeOfWrapped(0xffff_fff8, -8, 4);
    SignedRoundTrip(-8, 4);
  }

  lemma PriceLayout(disc: seq<Byte>, feed: seq<Byte>, price: int, time: int)
    requires |disc| == 8 && |feed| == 32
    ensures var data := Flatten(PriceParts(disc, feed, price, time));
            |data| >= 93 && data[73..81] == Le(price, 8) && data[89..93] == Le(0xffff_fff8, 4)
  {
    var head := [disc, seq(32, _ => 0), [1], feed];
    var mid := [Le(price, 8), Le(1, 8), Le(0xffff_fff8, 4)];
    var tail := [Le(time, 8), Le(time, 8), Le(price, 8), Le(1, 8), Le(0, 8)];
    FlattenConcat(head + mid, tail);
    FlattenConcat(head, mid);
    HeadLength(head);
    FlattenOfThree(Le(price, 8), Le(1, 8), Le(0xffff_fff8, 4));
    SlicesOfFive(Flatten(head), Le(price, 8), Le(1, 8), Le(0xffff_fff8, 4), Flatten(tail));
  }

  lemma SlicesOfFive(head: seq<Byte>, a: seq<Byte>, b: seq<Byte>, c: seq<Byte>, tail: seq<Byte>)
    requires |head| == 73 && |a| == 8 && |b| == 8 && |c| == 4
    ensures var data := head + (a + b + c) + tail;
            data[73..81] == a && data[89..93] == c
  {}

  lemma HeadLength(head: seq<seq<Byte>>)
    requires |head| == 4 && |head[0]| == 8 && |head[1]| == 32 && |head[2]| == 1 && |head[3]| == 32
    ensures |Flatten(head)| == 73
  {
    assert head[1..][1..] == head[2..] && head[2..][1..] == head[3..] && head[3..][1..] == [];
    assert |Flatten(head[3..])| == 32;
    assert |Flatten(head[2..])| == 33;
    assert |Flatten(head[1..])| == 65;
  }

  lemma FlattenOfThree(a: seq<Byte>, b: seq<Byte>, c: seq<Byte>)
    ensures Flatten([a, b, c]) == a + b + c
  {
    assert [a, b, c][1..] == [b, c] && [b, c][1..] == [c] && [c][1..] == [];
    assert Flatten([c]) == c;
    assert Flatten([b, c]) == b + c;
  }

  // ---- the mock route's instruction data ----

  /** Rust narrows both amounts to u64 first. */
  function RustRouteData(input: nat, output: nat): seq<Byte> {
    Le(input % U64, 8) + Le(output % U64, 8)
  }

  /** TypeScript writes the low eight bytes of the unbounded integers. */
  function TsRouteData(input: nat, output: nat): seq<Byte> {
    Le(input, 8) + Le(output, 8)
  }

  /** Both keepers send the same bytes, and the swap reads the amounts back exactly when they fit 64 bits. */
  lemma RouteDataAgrees(input: nat, output: nat)
    ensures RustRouteData(input, output) == TsRouteData(input, output)
    ensures var data := TsRouteData(input, output);
            (Unsigned(data[..8]) == input && Unsigned(data[8..]) == output) <==> (input < U64 && output < U64)
  {
    AmountOnWire(input);
    AmountOnWire(output);
    var data := TsRouteData(input, output);
    assert data[..8] == Le(input, 8) && data[8..] == Le(output, 8);
  }

  lemma {:induction false} AmountOnWire(v: nat)
    ensures Le(v % U64, 8) == Le(v, 8)
    ensures Unsigned(Le(v, 8)) == v <==> v < U64
  {
    PowersOf256();
    ModuloUnique(v - v % U64, U64, v / U64, 0);
    LeOfWrapped(v, v % U64, 8);
    LeIsModulo(v, 8);
    if v < U64 {
      ModuloUnique(v, U64, 0, v);
    }
  }
}
