/**
 * Pyth feed ids are stored on chain as 66 bytes of ASCII hex text. The TypeScript and Rust
 * decoders differ in how they trim, strip the prefix and treat bad digits; both are modelled
 * byte for byte on ASCII text.
 */
module FeedId {
  import opened Wrappers
  import opened Codec

  type Ascii = b: int | 0 <= b < 128

  const ZERO: Ascii := 48
  const LOWER_X: Ascii := 120

  function HexDigit(c: Ascii): Option<nat> {
    if 48 <= c <= 57 then Some(c - 48)
    else if 97 <= c <= 102 then Some(c - 87)
    else if 65 <= c <= 70 then Some(c - 55)
    else None
  }

  predicate HasPrefix(s: seq<Ascii>) {
    |s| >= 2 && s[0] == ZERO && s[1] == LOWER_X
  }

  // ---- TypeScript: decode, drop trailing NULs, strip one prefix, parseInt each pair ----

  function DropTrailingNuls(s: seq<Ascii>): seq<Ascii> {
    if s != [] && s[|s| - 1] == 0 then DropTrailingNuls(s[..|s| - 1]) else s
  }

  function StripOnePrefix(s: seq<Ascii>): seq<Ascii> {
    if HasPrefix(s) then s[2..] else s
  }

  /** `slice(2i, 2i + 2)`, clamped to the text. */
  function Pair(s: seq<Ascii>, i: nat): seq<Ascii> {
    if 2 * i >= |s| then [] else if 2 * i + 1 >= |s| then [s[2 * i]] else [s[2 * i], s[2 * i + 1]]
  }

  predicate IsSpace(c: Ascii) {
    9 <= c <= 13 || c == 32
  }

  function SkipSpace(s: seq<Ascii>): seq<Ascii> {
    if s != [] && IsSpace(s[0]) then SkipSpace(s[1..]) else s
  }

  /** Value of the longest prefix of hex digits, continuing from acc. */
  function DigitsFrom(s: seq<Ascii>, acc: nat): nat {
    if s == [] || HexDigit(s[0]).None? then acc else DigitsFrom(s[1..], 16 * acc + HexDigit(s[0]).value)
  }

  /** JavaScript `parseInt(text, 16)`; None is NaN. */
  function ParseInt16(text: seq<Ascii>): Option<int> {
    var s := SkipSpace(text);
    var negative := s != [] && s[0] == 45;
    var body := if s != [] && (s[0] == 43 || s[0] == 45) then s[1..] else s;
    var digits := if |body| >= 2 && body[0] == ZERO && (body[1] == LOWER_X || body[1] == 88) then body[2..] else body;
    if digits == [] || HexDigit(digits[0]).None? then None
    else Some(Negated(negative, DigitsFrom(digits, 0)))
  }

  function Negated(negative: bool, n: nat): int {
    if negative then -(n as int) else n
  }

  /** Storing into a Uint8Array: NaN becomes 0 and integers wrap. */
  function ToUint8(v: Option<int>): Byte {
    match v
    case None => 0
    case Some(n) => n % 256
  }

  function TsHexByte(hex: seq<Ascii>, i: nat): Byte {
    ToUint8(ParseInt16(Pair(hex, i)))
  }

  method TsFeed32(stored: seq<Ascii>) returns (out: array<Byte>)
    ensures fresh(out) && out[..] == TsDecode(stored)
  {
    var hex := StripOnePrefix(DropTrailingNuls(stored));
    out := new Byte[32];
    for i := 0 to 32
      invariant forall j :: 0 <= j < i ==> out[j] == TsHexByte(hex, j)
    {
      out[i] := TsHexByte(hex, i);
    }
  }

  function TsDecode(stored: seq<Ascii>): (id: seq<Byte>)
    ensures |id| == 32
  {
    var hex := StripOnePrefix(DropTrailingNuls(stored));
    seq(32, i requires 0 <= i < 32 => TsHexByte(hex, i))
  }

  // ---- Rust: stop at the first NUL, strip every prefix, from_str_radix each pair ----

  function TakeToNul(s: seq<Ascii>): seq<Ascii> {
    if s == [] || s[0] == 0 then [] else [s[0]] + TakeToNul(s[1..])
  }

  function StripAllPrefixes(s: seq<Ascii>): seq<Ascii> {
    if HasPrefix(s) then StripAllPrefixes(s[2..]) else s
  }

  /** `u8::from_str_radix(pair, 16).unwrap_or(0)`: an optional '+', then digits only. */
  function RustHexByte(hi: Ascii, lo: Ascii): Byte {
    match (HexDigit(hi), HexDigit(lo))
    case (Some(h), Some(l)) => HexDigitBelow16(hi); HexDigitBelow16(lo); 16 * h + l
    case (_, Some(l)) => HexDigitBelow16(lo); if hi == 43 then l else 0
    case _ => 0
  }

  lemma HexDigitBelow16(c: Ascii)
    ensures HexDigit(c).Some? ==> HexDigit(c).value < 16
  {}

  /** The indexing of a text that is too short panics. */
  method RustFeed32(stored: seq<Ascii>) returns (r: Result<seq<Byte>, Fault>)
    ensures r == RustDecode(stored)
  {
    var hex := StripAllPrefixes(TakeToNul(stored));
    var out := new Byte[32](_ => 0);
    for i := 0 to 32
      invariant 2 * i <= |hex|
      invariant forall j :: 0 <= j < i ==> out[j] == RustHexByte(hex[2 * j], hex[2 * j + 1])
    {
      if 2 * i + 2 > |hex| {
        return Failure(OutOfBounds);
      }
      out[i] := RustHexByte(hex[2 * i], hex[2 * i + 1]);
    }
    assert out[..] == seq(32, i requires 0 <= i < 32 => RustHexByte(hex[2 * i], hex[2 * i + 1]));
    r := Success(out[..]);
  }

  function RustDecode(stored: seq<Ascii>): Result<seq<Byte>, Fault> {
    var hex := StripAllPrefixes(TakeToNul(stored));
    if |hex| < 64 then Failure(OutOfBounds)
    else Success(seq(32, i requires 0 <= i < 32 => RustHexByte(hex[2 * i], hex[2 * i + 1])))
  }

  // ---- writer ----

  function HexChar(d: nat): Ascii
    requires d < 16
  {
    if d < 10 then 48 + d else 87 + d
  }

  function HexText(id: seq<Byte>): (s: seq<Ascii>)
    ensures |s| == 2 * |id|
  {
    if id == [] then [] else [HexChar(id[0] / 16), HexChar(id[0] % 16)] + HexText(id[1..])
  }

  /** `feedId66`: the text of the prefixed hex, cut or zero-padded to 66 bytes. */
  method FeedId66(hex: seq<Ascii>) returns (out: array<Ascii>)
    ensures fresh(out) && out[..] == Stored66(hex)
  {
    var s := [ZERO, LOWER_X] + hex;
    out := new Ascii[66](_ => 0);
    var n := if |s| < 66 then |s| else 66;
    forall j | 0 <= j < n {
      out[j] := s[j];
    }
  }

  function Stored66(hex: seq<Ascii>): (s: seq<Ascii>)
    ensures |s| == 66
  {
    var s := [ZERO, LOWER_X] + hex;
    seq(66, i requires 0 <= i < 66 => if i < |s| then s[i] else 0)
  }

  // ---- round trip and agreement ----

  predicate IsHex(hex: seq<Ascii>) {
    |hex| == 64 && forall i :: 0 <= i < 64 ==> HexDigit(hex[i]).Some?
  }

  /** A well-formed stored id: 64 hex digits, prefixed, or bare and zero-padded. */
  function WellFormedId(hex: seq<Ascii>, prefixed: bool): seq<Ascii> {
    if prefixed then [ZERO, LOWER_X] + hex else hex + [0, 0]
  }

  lemma TsReadsHex(hex: seq<Ascii>, prefixed: bool)
    requires IsHex(hex)
    ensures StripOnePrefix(DropTrailingNuls(WellFormedId(hex, prefixed))) == hex
  {
    var s := WellFormedId(hex, prefixed);
    if prefixed {
      assert s[|s| - 1] == hex[63];
    } else {
      assert s[..65] == hex + [0] && s[..65][..64] == hex;
      assert DropTrailingNuls(hex) == hex;
      assert DropTrailingNuls(hex + [0]) == hex;
    }
  }

  lemma {:induction false} TakeAllOf(s: seq<Ascii>, rest: seq<Ascii>)
    requires forall i :: 0 <= i < |s| ==> s[i] != 0
    requires rest == [] || rest[0] == 0
    ensures TakeToNul(s + rest) == s
    decreases |s|
  {
    if s == [] {
      assert s + rest == rest;
    } else {
      assert (s + rest)[1..] == s[1..] + rest;
      TakeAllOf(s[1..], rest);
    }
  }

  lemma RustReadsHex(hex: seq<Ascii>, prefixed: bool)
    requires IsHex(hex)
    ensures StripAllPrefixes(TakeToNul(WellFormedId(hex, prefixed))) == hex
  {
    if prefixed {
      var s := [ZERO, LOWER_X] + hex;
      assert s + [] == s;
      TakeAllOf(s, []);
      assert s[2..] == hex;
    } else {
      TakeAllOf(hex, [0, 0]);
    }
    assert HexDigit(hex[1]).Some?;
    assert StripAllPrefixes(hex) == hex;
  }

  lemma PairsAgree(hi: Ascii, lo: Ascii)
    requires HexDigit(hi).Some? && HexDigit(lo).Some?
    ensures ToUint8(ParseInt16([hi, lo])) == RustHexByte(hi, lo)
    ensures RustHexByte(hi, lo) == 16 * HexDigit(hi).value + HexDigit(lo).value
  {
    var s := [hi, lo];
    assert s[1..] == [lo] && [lo][1..] == [];
    assert DigitsFrom(s, 0) == DigitsFrom([lo], HexDigit(hi).value);
    assert DigitsFrom([lo], HexDigit(hi).value) == 16 * HexDigit(hi).value + HexDigit(lo).value;
    HexDigitBelow16(hi);
    HexDigitBelow16(lo);
  }

  /** The bytes that 64 hex digits spell. */
  function Spelled(hex: seq<Ascii>): seq<Byte>
    requires |hex| == 64
  {
    seq(32, i requires 0 <= i < 32 => RustHexByte(hex[2 * i], hex[2 * i + 1]))
  }

  /** On every well-formed stored id, with or without the prefix, the two decoders agree. */
  lemma DecodersAgree(hex: seq<Ascii>, prefixed: bool)
    requires IsHex(hex)
    ensures TsDecode(WellFormedId(hex, prefixed)) == Spelled(hex)
    ensures RustDecode(WellFormedId(hex, prefixed)) == Success(Spelled(hex))
  {
    TsReadsHex(hex, prefixed);
    RustReadsHex(hex, prefixed);
    forall i | 0 <= i < 32
      ensures TsHexByte(hex, i) == RustHexByte(hex[2 * i], hex[2 * i + 1])
    {
      PairsAgree(hex[2 * i], hex[2 * i + 1]);
    }
    assert TsDecode(WellFormedId(hex, prefixed)) == Spelled(hex);
  }

  lemma {:induction false} HexTextAt(id: seq<Byte>, i: nat)
    requires i < |id|
    ensures HexText(id)[2 * i] == HexChar(id[i] / 16) && HexText(id)[2 * i + 1] == HexChar(id[i] % 16)
    decreases |id|
  {
    if i == 0 {
    } else {
      HexTextAt(id[1..], i - 1);
    }
  }

  /** Printing a 32-byte id into its 66 bytes and decoding gives it back, in both languages. */
  lemma FeedIdRoundTrip(id: seq<Byte>)
    requires |id| == 32
    ensures TsDecode(Stored66(HexText(id))) == id
    ensures RustDecode(Stored66(HexText(id))) == Success(id)
  {
    HexTextIsHex(id);
    assert Stored66(HexText(id)) == WellFormedId(HexText(id), true);
    DecodersAgree(HexText(id), true);
    HexTextSpells(id);
  }

  lemma HexTextSpells(id: seq<Byte>)
    requires |id| == 32
    ensures Spelled(HexText(id)) == id
  {
    var hex := HexText(id);
    HexTextIsHex(id);
    forall i | 0 <= i < 32
      ensures RustHexByte(hex[2 * i], hex[2 * i + 1]) == id[i]
    {
      PairsAgree(hex[2 * i], hex[2 * i + 1]);
    }
  }

  lemma HexTextIsHex(id: seq<Byte>)
    requires |id| == 32
    ensures var hex := HexText(id);
            IsHex(hex)
            && forall i :: 0 <= i < 32 ==>
                 HexDigit(hex[2 * i]) == Some(id[i] / 16) && HexDigit(hex[2 * i + 1]) == Some(id[i] % 16)
  {
    var hex := HexText(id);
    forall i | 0 <= i < 32
      ensures HexDigit(hex[2 * i]) == Some(id[i] / 16) && HexDigit(hex[2 * i + 1]) == Some(id[i] % 16)
    {
      HexTextAt(id, i);
    }
    forall k | 0 <= k < 64 ensures HexDigit(hex[k]).Some? {
      var i := k / 2;
      assert HexDigit(hex[2 * i]).Some? && HexDigit(hex[2 * i + 1]).Some?;
    }
  }

  /**
   * A doubled prefix separates the decoders. Rust strips both and panics on the 62 digits left.
   * TypeScript strips one, reads the other as a zero byte, and the digits as the remaining bytes.
   */
  lemma DoubledPrefixDiffers(hex: seq<Ascii>)
    requires |hex| == 62 && forall i :: 0 <= i < 62 ==> HexDigit(hex[i]).Some?
    ensures var stored := [ZERO, LOWER_X] + [ZERO, LOWER_X] + hex;
            && RustDecode(stored) == Failure(OutOfBounds)
            && TsDecode(stored)
               == [0] + seq(31, i requires 0 <= i < 31 => RustHexByte(hex[2 * i], hex[2 * i + 1]))
  {
    var s := [ZERO, LOWER_X] + [ZERO, LOWER_X] + hex;
    assert s + [] == s;
    TakeAllOf(s, []);
    assert s[2..][2..] == hex;
    assert HexDigit(hex[1]).Some?;
    assert StripAllPrefixes(hex) == hex;
    assert HasPrefix(s[2..]);
    assert StripAllPrefixes(s[2..]) == hex;
    SinglePrefixLeft(hex);
  }

  lemma SinglePrefixLeft(hex: seq<Ascii>)
    requires |hex| == 62 && forall i :: 0 <= i < 62 ==> HexDigit(hex[i]).Some?
    ensures TsDecode([ZERO, LOWER_X] + [ZERO, LOWER_X] + hex)
            == [0] + seq(31, i requires 0 <= i < 31 => RustHexByte(hex[2 * i], hex[2 * i + 1]))
  {
    var s := [ZERO, LOWER_X] + [ZERO, LOWER_X] + hex;
    assert s[|s| - 1] == hex[61];
    var left := StripOnePrefix(DropTrailingNuls(s));
    assert left == [ZERO, LOWER_X] + hex;
    assert Pair(left, 0) == [ZERO, LOWER_X];
    assert ParseInt16([ZERO, LOWER_X]).None?;
    forall i | 1 <= i < 32 ensures TsHexByte(left, i) == RustHexByte(hex[2 * i - 2], hex[2 * i - 1]) {
      assert Pair(left, i) == [hex[2 * i - 2], hex[2 * i - 1]];
      PairsAgree(hex[2 * i - 2], hex[2 * i - 1]);
    }
  }

  // ---- exactly when the decoders agree ----

  /**
   * Pairs that both languages read as the same byte. A low hex digit is read alike unless a space or
   * a minus stands before it and it is not zero; without one, Rust reads zero and TypeScript the high
   * digit, if there is one.
   */
  predicate ReadAlike(hi: Ascii, lo: Ascii) {
    if HexDigit(lo).Some? then IsSpace(hi) || hi == 45 ==> lo == ZERO
    else HexDigit(hi).Some? ==> hi == ZERO
  }

  lemma PairReadAlikeIff(hi: Ascii, lo: Ascii)
    ensures ToUint8(ParseInt16([hi, lo])) == RustHexByte(hi, lo) <==> ReadAlike(hi, lo)
  {
    HexDigitBelow16(hi);
    HexDigitBelow16(lo);
    if HexDigit(hi).Some? {
      DigitFirst(hi, lo);
    } else if IsSpace(hi) {
      SpaceFirst(hi, lo);
    } else {
      NeitherFirst(hi, lo);
    }
  }

  lemma DigitFirst(hi: Ascii, lo: Ascii)
    requires HexDigit(hi).Some?
    ensures ToUint8(ParseInt16([hi, lo]))
            == if HexDigit(lo).Some? then 16 * HexDigit(hi).value + HexDigit(lo).value else HexDigit(hi).value
  {
    var s := [hi, lo];
    HexDigitBelow16(hi);
    HexDigitBelow16(lo);
    assert s[1..] == [lo] && s[2..] == [];
    assert SkipSpace(s) == s;
    assert ParseInt16(s) == if hi == ZERO && (lo == LOWER_X || lo == 88) then None else Some(DigitsFrom(s, 0));
    assert DigitsFrom(s, 0) == DigitsFrom([lo], HexDigit(hi).value);
    LastDigit(lo, HexDigit(hi).value);
  }

  lemma SpaceFirst(hi: Ascii, lo: Ascii)
    requires IsSpace(hi)
    ensures ToUint8(ParseInt16([hi, lo])) == if HexDigit(lo).Some? then HexDigit(lo).value else 0
  {
    var s := [hi, lo];
    HexDigitBelow16(lo);
    assert s[1..] == [lo];
    assert SkipSpace(s) == SkipSpace([lo]);
    SignedDigit([lo]);
  }

  /** A sign, or a character that starts no number. */
  lemma NeitherFirst(hi: Ascii, lo: Ascii)
    requires HexDigit(hi).None? && !IsSpace(hi)
    ensures ToUint8(ParseInt16([hi, lo]))
            == if HexDigit(lo).None? then 0
               else if hi == 43 then HexDigit(lo).value
               else if hi == 45 then Negated(true, HexDigit(lo).value) % 256
               else 0
  {
    var s := [hi, lo];
    HexDigitBelow16(lo);
    assert s[1..] == [lo] && SkipSpace(s) == s;
    if (hi == 43 || hi == 45) && HexDigit(lo).Some? {
      assert ParseInt16(s) == Some(Negated(hi == 45, DigitsFrom([lo], 0)));
      LastDigit(lo, 0);
    } else {
      assert ParseInt16(s).None?;
    }
  }

  /** A text of one character is a number exactly when it is a digit. */
  lemma SignedDigit(s: seq<Ascii>)
    requires |s| == 1
    ensures ParseInt16(s) == if HexDigit(s[0]).Some? then Some(HexDigit(s[0]).value) else None
  {
    assert s[1..] == [] && s == [s[0]];
    assert SkipSpace(s) == if IsSpace(s[0]) then [] else s;
    if HexDigit(s[0]).Some? {
      LastDigit(s[0], 0);
    }
  }

  lemma LastDigit(c: Ascii, acc: nat)
    ensures DigitsFrom([c], acc) == if HexDigit(c).Some? then 16 * acc + HexDigit(c).value else acc
  {
    assert [c][1..] == [];
  }

  lemma {:induction false} TakeToNulIsPrefix(s: seq<Ascii>)
    ensures |TakeToNul(s)| <= |s| && TakeToNul(s) == s[..|TakeToNul(s)|]
    ensures forall i :: 0 <= i < |TakeToNul(s)| ==> s[i] != 0
    decreases |s|
  {
    if s == [] || s[0] == 0 {
    } else {
      TakeToNulIsPrefix(s[1..]);
      assert forall i :: 1 <= i < |TakeToNul(s)| ==> s[i] == s[1..][i - 1];
    }
  }

  lemma {:induction false} DropKeepsTaken(s: seq<Ascii>, n: nat)
    requires n <= |s| && forall i :: 0 <= i < n ==> s[i] != 0
    ensures n <= |DropTrailingNuls(s)| && DropTrailingNuls(s)[..n] == s[..n]
    decreases |s|
  {
    if s == [] || s[|s| - 1] != 0 {
    } else {
      DropKeepsTaken(s[..|s| - 1], n);
      assert s[..|s| - 1][..n] == s[..n];
    }
  }

  /** When Rust is left with 64 characters or more, TypeScript reads the same first 64. */
  lemma SameText(stored: seq<Ascii>)
    requires |stored| <= 66 && |StripAllPrefixes(TakeToNul(stored))| >= 64
    ensures var ts, rust := StripOnePrefix(DropTrailingNuls(stored)), StripAllPrefixes(TakeToNul(stored));
            |ts| >= 64 && ts[..64] == rust[..64]
  {
    var taken, kept := TakeToNul(stored), DropTrailingNuls(stored);
    TakeToNulIsPrefix(stored);
    DropKeepsTaken(stored, |taken|);
    StripShortens(taken);
    assert kept[..|taken|] == taken;
    if HasPrefix(taken) {
      StripShortens(taken[2..]);
      assert StripAllPrefixes(taken[2..]) == taken[2..];
      assert kept[2..][..64] == kept[2..66] == taken[2..66];
    }
  }

  lemma StripShortens(s: seq<Ascii>)
    ensures |StripAllPrefixes(s)| <= |s|
    ensures HasPrefix(s) ==> |StripAllPrefixes(s)| <= |s| - 2
  {}

  /**
   * Over every text that the 66 stored bytes can hold: both decoders give the same id exactly when Rust
   * finds 64 characters to read and each of the 32 pairs is read alike.
   */
  lemma DecodersAgreeIff(stored: seq<Ascii>)
    requires |stored| == 66
    ensures RustDecode(stored) == Success(TsDecode(stored))
            <==> var hex := StripAllPrefixes(TakeToNul(stored));
                 |hex| >= 64 && forall i :: 0 <= i < 32 ==> ReadAlike(hex[2 * i], hex[2 * i + 1])
  {
    var hex := StripAllPrefixes(TakeToNul(stored));
    if |hex| >= 64 {
      SameText(stored);
      var ts := StripOnePrefix(DropTrailingNuls(stored));
      forall i | 0 <= i < 32
        ensures TsDecode(stored)[i] == RustHexByte(hex[2 * i], hex[2 * i + 1])
                <==> ReadAlike(hex[2 * i], hex[2 * i + 1])
      {
        assert ts[2 * i] == ts[..64][2 * i] == hex[2 * i] && ts[2 * i + 1] == ts[..64][2 * i + 1] == hex[2 * i + 1];
        PairReadAlikeIff(hex[2 * i], hex[2 * i + 1]);
      }
      assert RustDecode(stored).value == TsDecode(stored)
             <==> forall i :: 0 <= i < 32 ==> RustDecode(stored).value[i] == TsDecode(stored)[i];
      assert forall i :: 0 <= i < 32 ==> RustDecode(stored).value[i] == RustHexByte(hex[2 * i], hex[2 * i + 1]);
    }
  }

  // ---- digits of either case ----

  function LowerCase(c: Ascii): Ascii {
    if 65 <= c <= 70 then c + 32 else c
  }

  function LowerText(hex: seq<Ascii>): (s: seq<Ascii>)
    ensures |s| == |hex|
  {
    seq(|hex|, i requires 0 <= i < |hex| => LowerCase(hex[i]))
  }

  /** Upper-case and lower-case texts of one id decode alike in both languages. */
  lemma CaseIsIgnored(hex: seq<Ascii>, prefixed: bool)
    requires IsHex(hex)
    ensures TsDecode(WellFormedId(hex, prefixed)) == TsDecode(WellFormedId(LowerText(hex), prefixed))
    ensures RustDecode(WellFormedId(hex, prefixed)) == RustDecode(WellFormedId(LowerText(hex), prefixed))
  {
    SpellingIgnoresCase(hex);
    DecodersAgree(hex, prefixed);
    DecodersAgree(LowerText(hex), prefixed);
  }

  lemma SpellingIgnoresCase(hex: seq<Ascii>)
    requires IsHex(hex)
    ensures IsHex(LowerText(hex)) && Spelled(LowerText(hex)) == Spelled(hex)
  {
    var lower := LowerText(hex);
    forall i | 0 <= i < 64 ensures HexDigit(lower[i]) == HexDigit(hex[i]) {
      LowerCaseIsSameDigit(hex[i]);
    }
    forall i | 0 <= i < 32 ensures Spelled(lower)[i] == Spelled(hex)[i] {
      SameDigitsSameByte(hex[2 * i], hex[2 * i + 1], lower[2 * i], lower[2 * i + 1]);
    }
  }

  lemma LowerCaseIsSameDigit(c: Ascii)
    ensures HexDigit(LowerCase(c)) == HexDigit(c)
  {}

  lemma SameDigitsSameByte(hi: Ascii, lo: Ascii, hi': Ascii, lo': Ascii)
    requires HexDigit(hi).Some? && HexDigit(lo).Some? && HexDigit(hi') == HexDigit(hi) && HexDigit(lo') == HexDigit(lo)
    ensures RustHexByte(hi', lo') == RustHexByte(hi, lo)
  {}

  /** The sixteen digits, upper and lower case, are worth 0 to 15; no other character is a digit. */
  lemma DigitsAre0To15(c: Ascii, d: nat)
    ensures HexDigit(c) == Some(d)
            <==> (d < 10 && c as int == '0' as int + d)
                 || (10 <= d < 16 && (c as int == 'a' as int + d - 10 || c as int == 'A' as int + d - 10))
  {}

  /** A text that is too short is padded with NULs only, which the TypeScript decoder drops again. */
  lemma ShortTextIsPadded(hex: seq<Ascii>)
    requires |hex| <= 64 && forall i :: 0 <= i < |hex| ==> hex[i] != 0
    ensures DropTrailingNuls(Stored66(hex)) == [ZERO, LOWER_X] + hex
    ensures TakeToNul(Stored66(hex)) == [ZERO, LOWER_X] + hex
  {
    var s := [ZERO, LOWER_X] + hex;
    var pad := seq(66 - |s|, _ => 0 as Ascii);
    assert Stored66(hex) == s + pad;
    TakeAllOf(s, pad);
    PaddingIsDropped(s, 66 - |s|);
  }

  lemma {:induction false} PaddingIsDropped(s: seq<Ascii>, n: nat)
    requires s != [] && s[|s| - 1] != 0
    ensures DropTrailingNuls(s + seq(n, _ => 0 as Ascii)) == s
    decreases n
  {
    var all := s + seq(n, _ => 0 as Ascii);
    if n == 0 {
      assert all == s;
    } else {
      assert all[..|all| - 1] == s + seq(n - 1, _ => 0 as Ascii);
      PaddingIsDropped(s, n - 1);
    }
  }
}
