/** Decimal text: printing, Rust and JavaScript integer parsing, and the amount parser of the web app. */
module Decimal {
  import opened Wrappers
  import opened Arithmetic

  predicate IsDigit(c: char) {
    '0' <= c <= '9'
  }

  predicate AllDigits(s: string) {
    forall i :: 0 <= i < |s| ==> IsDigit(s[i])
  }

  function Value(s: string): nat
    requires AllDigits(s)
  {
    if s == [] then 0 else 10 * Value(s[..|s| - 1]) + (s[|s| - 1] as int - '0' as int)
  }

  /** Canonical decimal text of a number. */
  function Show(n: nat): (s: string)
    ensures AllDigits(s) && s != [] && Value(s) == n
  {
    var last := ['0' + (n % 10) as char];
    if n < 10 then last
    else
      var front := Show(n / 10);
      assert (front + last)[..|front|] == front;
      front + last
  }

  function ShowInt(n: int): string {
    if n < 0 then "-" + Show(-n) else Show(n)
  }

  // ---- integer parsing ----

  function ParseDigits(s: string): Option<nat> {
    if s != [] && AllDigits(s) then Some(Value(s)) else None
  }

  function Signed(negative: bool, n: nat): int {
    var v: int := n;
    if negative then -v else v
  }

  /** Rust `parse::<u128>()`. */
  function ParseU128(s: string): Option<nat> {
    var body := if s != [] && s[0] == '+' then s[1..] else s;
    match ParseDigits(body)
    case Some(n) => if n < U128 then Some(n) else None
    case None => None
  }

  /** Rust `parse::<i128>()`. */
  function ParseI128(s: string): Option<int> {
    var negative := s != [] && s[0] == '-';
    var body := if s != [] && (s[0] == '+' || s[0] == '-') then s[1..] else s;
    match ParseDigits(body)
    case Some(n) =>
      var v := Signed(negative, n);
      if -(U128 / 2) <= v < U128 / 2 then Some(v) else None
    case None => None
  }

  datatype SyntaxError = SyntaxError

  /** White space as JavaScript trims it. */
  predicate IsSpace(c: char) {
    || '\U{0009}' <= c <= '\U{000D}' || c == ' ' || c == '\U{00A0}' || c == '\U{1680}'
    || '\U{2000}' <= c <= '\U{200A}' || c == '\U{2028}' || c == '\U{2029}' || c == '\U{202F}'
    || c == '\U{205F}' || c == '\U{3000}' || c == '\U{FEFF}'
  }

  predicate AllSpace(s: string) {
    forall i :: 0 <= i < |s| ==> IsSpace(s[i])
  }

  function TrimStart(s: string): string {
    if s != [] && IsSpace(s[0]) then TrimStart(s[1..]) else s
  }

  function TrimEnd(s: string): string {
    if s != [] && IsSpace(s[|s| - 1]) then TrimEnd(s[..|s| - 1]) else s
  }

  function Trim(s: string): string {
    TrimEnd(TrimStart(s))
  }

  function HexDigit(c: char): Option<nat> {
    if '0' <= c <= '9' then Some(c as int - '0' as int)
    else if 'a' <= c <= 'f' then Some(c as int - 'a' as int + 10)
    else if 'A' <= c <= 'F' then Some(c as int - 'A' as int + 10)
    else None
  }

  function ParseRadix(s: string, radix: nat): Option<nat> {
    if s == [] then None
    else
      match HexDigit(s[|s| - 1])
      case None => None
      case Some(d) =>
        if d >= radix then None
        else if |s| == 1 then Some(d)
        else match ParseRadix(s[..|s| - 1], radix)
             case None => None
             case Some(n) => Some(n * radix + d)
  }

  function RadixOf(c: char): Option<nat> {
    if c == 'x' || c == 'X' then Some(16)
    else if c == 'o' || c == 'O' then Some(8)
    else if c == 'b' || c == 'B' then Some(2)
    else None
  }

  /** JavaScript `BigInt(string)`. */
  function StringToBigInt(text: string): Result<int, SyntaxError> {
    var s := Trim(text);
    if s == [] then Success(0)
    else if |s| >= 2 && s[0] == '0' && RadixOf(s[1]).Some? then
      match ParseRadix(s[2..], RadixOf(s[1]).value)
      case Some(n) => Success(n)
      case None => Failure(SyntaxError)
    else
      var body := if s[0] == '+' || s[0] == '-' then s[1..] else s;
      match ParseDigits(body)
      case Some(n) => Success(Signed(s[0] == '-', n))
      case None => Failure(SyntaxError)
  }

  /** A price written by either keeper is read back unchanged by both. */
  lemma ShownIntReadsBack(n: int)
    requires -(U128 / 2) <= n < U128 / 2
    ensures ShowInt(n) != []
    ensures ParseI128(ShowInt(n)) == Some(n)
    ensures StringToBigInt(ShowInt(n)) == Success(n)
  {
    var s := ShowInt(n);
    assert n < 0 ==> s[1..] == Show(-n);
    TrimIdentity(s);
  }

  lemma TrimIdentity(s: string)
    requires s == [] || (!IsSpace(s[0]) && !IsSpace(s[|s| - 1]))
    ensures Trim(s) == s
  {}

  // ---- the amount parser ----

  function IndexOfDot(s: string): (k: nat)
    ensures k <= |s|
    ensures k < |s| ==> s[k] == '.'
    ensures forall i :: 0 <= i < k ==> s[i] != '.'
  {
    if s == [] || s[0] == '.' then 0 else 1 + IndexOfDot(s[1..])
  }

  /** The first two parts of `split('.')`; later parts are dropped, a missing second part is empty. */
  function SplitAtDot(s: string): (string, string) {
    var k := IndexOfDot(s);
    if k == |s| then (s, "")
    else
      var rest := s[k + 1..];
      (s[..k], rest[..IndexOfDot(rest)])
  }

  function Zeros(n: nat): (s: string)
    ensures |s| == n && AllDigits(s)
    ensures forall i :: 0 <= i < n ==> s[i] == '0'
  {
    seq(n, _ => '0')
  }

  /** Drops leading zeros that are followed by another digit. */
  function StripZeros(s: string): string {
    if |s| >= 2 && s[0] == '0' && IsDigit(s[1]) then StripZeros(s[1..]) else s
  }

  function ToBaseUnits(human: string, decimals: nat): Result<int, SyntaxError> {
    var (whole, frac) := SplitAtDot(Trim(human));
    var fracPadded := (frac + Zeros(decimals))[..decimals];
    var digits := StripZeros((if whole == [] then "0" else whole) + fracPadded);
    StringToBigInt(if digits == [] then "0" else digits)
  }

  lemma {:induction false} ValueConcat(a: string, b: string)
    requires AllDigits(a) && AllDigits(b)
    ensures AllDigits(a + b)
    ensures Value(a + b) == Value(a) * Pow10(|b|) + Value(b)
    decreases |b|
  {
    if b == [] {
      assert a + b == a;
    } else {
      var front := b[..|b| - 1];
      assert (a + b)[..|a + b| - 1] == a + front;
      ValueConcat(a, front);
      MulAssoc(Value(a), 10, Pow10(|front|));
      MulSwap(Value(a), Pow10(|front|), 10);
    }
  }

  lemma {:induction false} ValueOfZeros(n: nat)
    ensures Value(Zeros(n)) == 0
  {
    if n == 0 {
    } else {
      assert Zeros(n)[..n - 1] == Zeros(n - 1);
      ValueOfZeros(n - 1);
    }
  }

  lemma {:induction false} ValueBelow(s: string)
    requires AllDigits(s)
    ensures Value(s) < Pow10(|s|)
    decreases |s|
  {
    if s == [] {
    } else {
      ValueBelow(s[..|s| - 1]);
    }
  }

  lemma {:induction false} StripKeepsValue(s: string)
    requires AllDigits(s) && s != []
    ensures AllDigits(StripZeros(s)) && StripZeros(s) != []
    ensures Value(StripZeros(s)) == Value(s)
    decreases |s|
  {
    if |s| >= 2 && s[0] == '0' {
      assert s == "0" + s[1..];
      ValueConcat("0", s[1..]);
      ZeroText();
      StripKeepsValue(s[1..]);
    }
  }

  lemma {:induction false} TrimStartDrops(pad: string, core: string)
    requires AllSpace(pad)
    ensures TrimStart(pad + core) == TrimStart(core)
    decreases |pad|
  {
    if pad == [] {
      assert pad + core == core;
    } else {
      assert (pad + core)[1..] == pad[1..] + core;
      TrimStartDrops(pad[1..], core);
    }
  }

  lemma {:induction false} TrimEndDrops(core: string, pad: string)
    requires AllSpace(pad)
    ensures TrimEnd(core + pad) == TrimEnd(core)
    decreases |pad|
  {
    if pad == [] {
      assert core + pad == core;
    } else {
      assert (core + pad)[..|core + pad| - 1] == core + pad[..|pad| - 1];
      TrimEndDrops(core, pad[..|pad| - 1]);
    }
  }

  lemma TrimRemovesPadding(before: string, core: string, after: string)
    requires AllSpace(before) && AllSpace(after)
    requires core == [] || (!IsSpace(core[0]) && !IsSpace(core[|core| - 1]))
    ensures Trim(before + core + after) == core
  {
    assert before + core + after == before + (core + after);
    TrimStartDrops(before, core + after);
    if core == [] {
      assert core + after == after + [];
      TrimStartDrops(after, []);
    } else {
      assert TrimStart(core + after) == core + after;
      TrimEndDrops(core, after);
    }
  }

  /** The text of a non-negative decimal: digits, and a point with more digits when `dotted`. */
  predicate WellFormed(whole: string, frac: string, dotted: bool) {
    AllDigits(whole) && AllDigits(frac) && (!dotted ==> frac == [])
  }

  function Text(whole: string, frac: string, dotted: bool): string {
    if dotted then whole + "." + frac else whole
  }

  lemma SplitsBack(whole: string, frac: string, dotted: bool)
    requires WellFormed(whole, frac, dotted)
    ensures SplitAtDot(Text(whole, frac, dotted)) == (whole, frac)
  {
    var s := Text(whole, frac, dotted);
    var k := IndexOfDot(s);
    assert forall i :: 0 <= i < |whole| ==> s[i] == whole[i];
    if dotted {
      assert s[|whole|] == '.';
      assert k == |whole|;
      assert s[k + 1..] == frac;
      assert s[..k] == whole;
      var j := IndexOfDot(frac);
      assert j == |frac|;
      assert frac[..j] == frac;
    } else {
      assert k == |s|;
    }
  }

  /** floor(value * 10^decimals), where value is the rational (W 10^|f| + F) / 10^|f|. */
  function ExactFloor(whole: string, frac: string, decimals: nat): int
    requires AllDigits(whole) && AllDigits(frac)
  {
    (Value(whole) * Pow10(|frac|) + Value(frac)) * Pow10(decimals) / Pow10(|frac|)
  }

  lemma PadShort(frac: string, decimals: nat)
    requires |frac| <= decimals
    ensures (frac + Zeros(decimals))[..decimals] == frac + Zeros(decimals - |frac|)
  {}

  lemma {:induction false} PaddedValue(whole: string, frac: string, decimals: nat)
    requires AllDigits(whole) && AllDigits(frac)
    ensures AllDigits(whole + (frac + Zeros(decimals))[..decimals])
    ensures Value(whole + (frac + Zeros(decimals))[..decimals]) == ExactFloor(whole, frac, decimals)
  {
    ValueConcat(whole, frac);
    if |frac| <= decimals {
      PadShort(frac, decimals);
      assert whole + (frac + Zeros(decimals))[..decimals] == whole + frac + Zeros(decimals - |frac|);
      ExactFloorShort(whole, frac, decimals);
    } else {
      assert (frac + Zeros(decimals))[..decimals] == frac[..decimals];
      ExactFloorLong(whole, frac, decimals);
    }
  }

  lemma {:induction false} ExactFloorShort(whole: string, frac: string, decimals: nat)
    requires AllDigits(whole) && AllDigits(frac) && |frac| <= decimals
    ensures AllDigits(whole + frac + Zeros(decimals - |frac|))
    ensures Value(whole + frac + Zeros(decimals - |frac|)) == ExactFloor(whole, frac, decimals)
  {
    var k := decimals - |frac|;
    ValueConcat(whole, frac);
    ValueConcat(whole + frac, Zeros(k));
    ValueOfZeros(k);
    Pow10Add(k, |frac|);
    ExactQuotient(Value(whole + frac), Pow10(k), Pow10(|frac|));
  }

  lemma {:induction false} ExactFloorLong(whole: string, frac: string, decimals: nat)
    requires AllDigits(whole) && AllDigits(frac) && decimals < |frac|
    ensures AllDigits(whole + frac[..decimals])
    ensures Value(whole + frac[..decimals]) == ExactFloor(whole, frac, decimals)
  {
    var padded, tail := whole + frac[..decimals], frac[decimals..];
    ValueConcat(whole, frac);
    assert whole + frac == padded + tail;
    PaddedLong(padded, tail, whole + frac);
    Pow10Add(decimals, |tail|);
    TruncatedQuotient(Value(padded), Pow10(|tail|), Value(tail), Pow10(decimals));
  }

  lemma {:induction false} PaddedLong(padded: string, tail: string, all: string)
    requires AllDigits(all) && all == padded + tail
    ensures AllDigits(padded) && AllDigits(tail)
    ensures Value(all) == Value(padded) * Pow10(|tail|) + Value(tail) && Value(tail) < Pow10(|tail|)
  {
    assert padded == all[..|padded|] && tail == all[|padded|..];
    ValueConcat(padded, tail);
    ValueBelow(tail);
  }

  lemma ExactQuotient(v: nat, z: nat, d: nat)
    requires d > 0
    ensures v * (z * d) / d == v * z
  {
    MulAssoc(v, z, d);
    FloorUnique(v * z * d, d, v * z);
  }

  lemma TruncatedQuotient(v: nat, k: nat, tail: nat, d: nat)
    requires tail < k && d > 0
    ensures d * k > 0 && (v * k + tail) * d / (d * k) == v
  {
    var n := v * k + tail;
    assert v * k <= n < (v + 1) * k;
    MulMonotone(v * k, n, d);
    MulStrict(n, (v + 1) * k, d);
    MulSwap(v, k, d);
    MulSwap(v + 1, k, d);
    MulAssoc(v, d, k);
    MulAssoc(v + 1, d, k);
    assert d * k > 0;
    FloorUnique(n * d, d * k, v);
  }

  /**
   * Exact truncation: on every well-formed non-negative decimal, padded with white space or not,
   * the parser returns floor(value * 10^decimals).
   */
  lemma ToBaseUnitsIsFloor(before: string, whole: string, frac: string, dotted: bool, after: string, decimals: nat)
    requires AllSpace(before) && AllSpace(after) && WellFormed(whole, frac, dotted)
    ensures ToBaseUnits(before + Text(whole, frac, dotted) + after, decimals)
            == Success(ExactFloor(whole, frac, decimals))
  {
    TextTrims(before, whole, frac, dotted, after);
    SplitsBack(whole, frac, dotted);
    var fracPadded := (frac + Zeros(decimals))[..decimals];
    PaddedValue(whole, frac, decimals);
    assert fracPadded == (whole + fracPadded)[|whole|..];
    PaddedParse(whole, fracPadded);
  }

  lemma TextTrims(before: string, whole: string, frac: string, dotted: bool, after: string)
    requires AllSpace(before) && AllSpace(after) && WellFormed(whole, frac, dotted)
    ensures Trim(before + Text(whole, frac, dotted) + after) == Text(whole, frac, dotted)
  {
    var core := Text(whole, frac, dotted);
    assert core != [] ==> !IsSpace(core[0]) && !IsSpace(core[|core| - 1]);
    TrimRemovesPadding(before, core, after);
  }

  lemma {:induction false} PaddedParse(whole: string, padded: string)
    requires AllDigits(whole) && AllDigits(padded)
    ensures var digits := StripZeros((if whole == [] then "0" else whole) + padded);
            digits != [] && StringToBigInt(digits) == Success(Value(whole + padded))
  {
    var lead := if whole == [] then "0" else whole;
    var digits := StripZeros(lead + padded);
    ZeroText();
    assert Value(lead) == Value(whole);
    ValueConcat(lead, padded);
    ValueConcat(whole, padded);
    StripKeepsValue(lead + padded);
    DigitsParse(digits);
  }

  lemma ZeroText()
    ensures Value("0") == 0
  {
    assert Value("0"[..0]) == 0;
  }

  lemma DigitsParse(s: string)
    requires AllDigits(s) && s != []
    ensures StringToBigInt(s) == Success(Value(s))
  {
    TrimIdentity(s);
  }

  /** Leading zeros and trailing zeros of the fraction do not change the result. */
  lemma ToBaseUnitsIgnoresZeros(whole: string, frac: string, lead: nat, trail: nat, decimals: nat)
    requires AllDigits(whole) && AllDigits(frac)
    ensures ToBaseUnits(Zeros(lead) + whole + "." + (frac + Zeros(trail)), decimals)
            == ToBaseUnits(whole + "." + frac, decimals)
  {
    ExactFloorIgnoresZeros(whole, frac, lead, trail, decimals);
    DottedIsFloor(Zeros(lead) + whole, frac + Zeros(trail), decimals);
    DottedIsFloor(whole, frac, decimals);
  }

  lemma {:induction false} ExactFloorIgnoresZeros(whole: string, frac: string, lead: nat, trail: nat, decimals: nat)
    requires AllDigits(whole) && AllDigits(frac)
    ensures ExactFloor(Zeros(lead) + whole, frac + Zeros(trail), decimals) == ExactFloor(whole, frac, decimals)
  {
    LeadingZeros(lead, whole);
    ValueConcat(frac, Zeros(trail));
    ValueOfZeros(trail);
    Pow10Add(|frac|, trail);
    ScaledTogether(Value(whole), Value(frac), Pow10(|frac|), Pow10(trail), Pow10(decimals));
  }

  /** A missing whole part reads as zero. */
  lemma ToBaseUnitsDefaultsWhole(frac: string, decimals: nat)
    requires AllDigits(frac)
    ensures ToBaseUnits("." + frac, decimals) == ToBaseUnits("0." + frac, decimals)
  {
    assert [] + "." + frac == "." + frac && "0" + "." + frac == "0." + frac;
    EmptyIsZero(frac, decimals);
    DottedIsFloor([], frac, decimals);
    DottedIsFloor("0", frac, decimals);
  }

  lemma EmptyIsZero(frac: string, decimals: nat)
    requires AllDigits(frac)
    ensures ExactFloor([], frac, decimals) == ExactFloor("0", frac, decimals)
  {
    ZeroText();
  }

  lemma {:induction false} LeadingZeros(lead: nat, whole: string)
    requires AllDigits(whole)
    ensures AllDigits(Zeros(lead) + whole) && Value(Zeros(lead) + whole) == Value(whole)
  {
    ValueConcat(Zeros(lead), whole);
    ValueOfZeros(lead);
  }

  lemma DottedIsFloor(whole: string, frac: string, decimals: nat)
    requires AllDigits(whole) && AllDigits(frac)
    ensures ToBaseUnits(whole + "." + frac, decimals)
            == Success(ExactFloor(whole, frac, decimals))
  {
    assert [] + Text(whole, frac, true) + [] == whole + "." + frac;
    ToBaseUnitsIsFloor([], whole, frac, true, [], decimals);
  }

  lemma ScaledTogether(w: nat, f: nat, p: nat, z: nat, d: nat)
    requires p > 0 && z > 0
    ensures p * z > 0 && (w * (p * z) + f * z) * d / (p * z) == (w * p + f) * d / p
  {
    MulAssoc(w, p, z);
    assert w * (p * z) + f * z == (w * p + f) * z;
    MulSwap(w * p + f, z, d);
    CommonFactor((w * p + f) * d, p, z);
  }

  lemma CommonFactor(n: nat, d: nat, z: nat)
    requires d > 0 && z > 0
    ensures d * z > 0 && n * z / (d * z) == n / d
  {
    var q := n / d;
    FloorBounds(n, d);
    MulMonotone(q * d, n, z);
    MulStrict(n, (q + 1) * d, z);
    MulAssoc(q, d, z);
    MulAssoc(q + 1, d, z);
    assert d * z > 0;
    FloorUnique(n * z, d * z, q);
  }

  // ---- which texts read as which numbers ----

  /** Rust reads digits, with or without a plus before them, as their value if it fits; a minus only when signed. */
  lemma RustReadsDigits(d: string)
    requires d != [] && AllDigits(d)
    ensures var read := if Value(d) < U128 then Some(Value(d)) else None;
            ParseU128(d) == read && ParseU128("+" + d) == read && ParseU128("-" + d) == None
    ensures var v: int := Value(d);
            && ParseI128(d) == (if v < U128 / 2 then Some(v) else None)
            && ParseI128("+" + d) == ParseI128(d)
            && ParseI128("-" + d) == (if v <= U128 / 2 then Some(-v) else None)
  {
    assert ("+" + d)[1..] == d && ("-" + d)[1..] == d;
    assert ("-" + d)[0] == '-' && !IsDigit('-');
  }

  /** It reads no other text: an empty one, a bare sign, or anything that is not a digit after the sign. */
  lemma RustRejectsOthers(s: string, i: nat)
    requires s == [] || (i < |s| && !IsDigit(s[i]) && (i > 0 || (s[0] != '+' && s[0] != '-'))) || s == "+" || s == "-"
    ensures ParseU128(s) == None && ParseI128(s) == None
  {
    if s != [] && i > 0 && i < |s| {
      assert s[1..][i - 1] == s[i];
    }
  }

  /** JavaScript reads the same digits, signed or not and padded with white space, as their exact value. */
  lemma BigIntReadsDigits(before: string, d: string, after: string)
    requires AllSpace(before) && AllSpace(after) && d != [] && AllDigits(d)
    ensures StringToBigInt(before + d + after) == Success(Value(d))
    ensures StringToBigInt(before + (['+'] + d) + after) == Success(Value(d))
    ensures StringToBigInt(before + (['-'] + d) + after) == Success(Signed(true, Value(d)))
  {
    DigitsParse(d);
    SignedDigitsParse('+', d);
    SignedDigitsParse('-', d);
    PaddingIsIgnored(before, d, after);
    PaddingIsIgnored(before, ['+'] + d, after);
    PaddingIsIgnored(before, ['-'] + d, after);
  }

  lemma PaddingIsIgnored(before: string, core: string, after: string)
    requires AllSpace(before) && AllSpace(after) && core != [] && !IsSpace(core[0]) && !IsSpace(core[|core| - 1])
    ensures StringToBigInt(before + core + after) == StringToBigInt(core)
  {
    TrimRemovesPadding(before, core, after);
    TrimIdentity(core);
  }

  lemma SignedDigitsParse(sign: char, d: string)
    requires sign in {'+', '-'} && d != [] && AllDigits(d)
    ensures StringToBigInt([sign] + d) == Success(Signed(sign == '-', Value(d)))
  {
    var s := [sign] + d;
    assert s[0] == sign && s[1..] == d;
    TrimIdentity(s);
  }

  /** So whatever Rust reads as an amount, JavaScript reads as the same one. */
  lemma ReadAmountsAgree(s: string)
    requires ParseU128(s).Some?
    ensures StringToBigInt(s) == Success(ParseU128(s).value)
  {
    if s[0] == '+' {
      SignedDigitsParse('+', s[1..]);
      assert s == ['+'] + s[1..];
    } else {
      DigitsParse(s);
    }
  }

  /** The reverse fails: a blank text is zero, and a prefixed one a number in its base, only for JavaScript. */
  lemma BlankReadsAsZero(s: string)
    requires AllSpace(s)
    ensures StringToBigInt(s) == Success(0) && ParseU128(s) == None
  {
    assert s + [] + [] == s;
    TrimRemovesPadding(s, [], []);
    assert s != [] ==> !IsDigit(s[0]) && s[0] != '+';
  }

  /** The number that a sequence of digits denotes in a base. */
  function Positional(digits: seq<nat>, radix: nat): nat {
    if digits == [] then 0
    else Positional(digits[..|digits| - 1], radix) * radix + digits[|digits| - 1]
  }

  predicate AreDigits(digits: seq<nat>, radix: nat) {
    radix <= 16 && forall i :: 0 <= i < |digits| ==> digits[i] < radix
  }

  function DigitText(digits: seq<nat>): (s: string)
    requires AreDigits(digits, 16)
    ensures |s| == |digits|
  {
    if digits == [] then "" else DigitText(digits[..|digits| - 1]) + ["0123456789abcdef"[digits[|digits| - 1]]]
  }

  lemma {:induction false} DigitsRead(digits: seq<nat>, radix: nat)
    requires digits != [] && AreDigits(digits, radix)
    ensures AreDigits(digits, 16) && ParseRadix(DigitText(digits), radix) == Some(Positional(digits, radix))
    decreases |digits|
  {
    if |digits| == 1 {
      OneDigitReads(digits, radix);
    } else {
      DigitsRead(digits[..|digits| - 1], radix);
      NextDigitReads(digits, radix);
    }
  }

  lemma NextDigitReads(digits: seq<nat>, radix: nat)
    requires |digits| > 1 && AreDigits(digits, radix)
    requires var front := digits[..|digits| - 1];
             AreDigits(front, 16) && ParseRadix(DigitText(front), radix) == Some(Positional(front, radix))
    ensures AreDigits(digits, 16) && ParseRadix(DigitText(digits), radix) == Some(Positional(digits, radix))
  {
    var front, d := digits[..|digits| - 1], digits[|digits| - 1];
    DigitReadsBack(d);
    RadixStep(DigitText(front), "0123456789abcdef"[d], radix, Positional(front, radix), d);
  }

  lemma OneDigitReads(digits: seq<nat>, radix: nat)
    requires |digits| == 1 && AreDigits(digits, radix)
    ensures AreDigits(digits, 16) && ParseRadix(DigitText(digits), radix) == Some(Positional(digits, radix))
  {
    var c := "0123456789abcdef"[digits[0]];
    DigitReadsBack(digits[0]);
    assert digits[..0] == [] && [] + [c] == [c];
  }

  lemma RadixStep(front: string, c: char, radix: nat, q: nat, d: nat)
    requires front != [] && ParseRadix(front, radix) == Some(q) && HexDigit(c) == Some(d) && d < radix
    ensures ParseRadix(front + [c], radix) == Some(q * radix + d)
  {
    var s := front + [c];
    assert s[..|s| - 1] == front && s[|s| - 1] == c;
  }

  lemma DigitReadsBack(d: nat)
    requires d < 16
    ensures HexDigit("0123456789abcdef"[d]) == Some(d) && HexDigit("0123456789ABCDEF"[d]) == Some(d)
  {}

  /** JavaScript reads a number written in hexadecimal, octal or binary, with its prefix in either case. */
  lemma PrefixedDigitsRead(c: char, digits: seq<nat>, radix: nat)
    requires (c in {'x', 'X'} && radix == 16) || (c in {'o', 'O'} && radix == 8) || (c in {'b', 'B'} && radix == 2)
    requires digits != [] && AreDigits(digits, radix)
    ensures AreDigits(digits, 16) && StringToBigInt("0" + [c] + DigitText(digits)) == Success(Positional(digits, radix))
  {
    DigitsRead(digits, radix);
    PrefixIsRead(c, DigitText(digits), radix);
  }

  lemma PrefixIsRead(c: char, digits: string, radix: nat)
    requires RadixOf(c) == Some(radix) && digits != [] && ParseRadix(digits, radix).Some?
    ensures StringToBigInt("0" + [c] + digits) == Success(ParseRadix(digits, radix).value)
  {
    var s := "0" + [c] + digits;
    assert s[2..] == digits && s[|s| - 1] == digits[|digits| - 1];
    assert HexDigit(digits[|digits| - 1]).Some?;
    TrimIdentity(s);
  }
}
