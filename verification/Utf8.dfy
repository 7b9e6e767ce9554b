/** UTF-8 as Python encodes and decodes it (section 3 of RFC 3629); decoding replaces what is malformed. */
module Utf8 {

  type Byte = b: int | 0 <= b < 256

  /** Unicode scalar values: the characters a Dafny string holds are exactly those UTF-8 can encode. */
  predicate IsScalar(n: int) {
    0 <= n < 0xD800 || 0xE000 <= n < 0x110000
  }

  const REPLACEMENT := 0xFFFD as char

  function EncodeChar(c: char): (bytes: seq<Byte>)
    ensures 1 <= |bytes| <= 4
  {
    var n := c as int;
    if n < 0x80 then [n]
    else if n < 0x800 then [0xC0 + n / 0x40, 0x80 + n % 0x40]
    else if n < 0x10000 then [0xE0 + n / 0x1000, 0x80 + n / 0x40 % 0x40, 0x80 + n % 0x40]
    else [0xF0 + n / 0x40000, 0x80 + n / 0x1000 % 0x40, 0x80 + n / 0x40 % 0x40, 0x80 + n % 0x40]
  }

  function Encode(s: string): seq<Byte> {
    if s == "" then [] else EncodeChar(s[0]) + Encode(s[1..])
  }

  /** How many bytes the sequence starting with this byte should have; 0 for a byte that starts none. */
  function Expected(lead: Byte): nat {
    if lead < 0x80 then 1
    else if 0xC2 <= lead < 0xE0 then 2
    else if 0xE0 <= lead < 0xF0 then 3
    else if 0xF0 <= lead < 0xF5 then 4
    else 0
  }

  /**
   Whether `b` may be the `i`-th byte after this lead: overlong forms, surrogates and values past U+10FFFF are
   excluded.
   */
  predicate Continues(lead: Byte, i: nat, b: Byte) {
    var low := if i == 1 && lead == 0xE0 then 0xA0 else if i == 1 && lead == 0xF0 then 0x90 else 0x80;
    var high := if i == 1 && lead == 0xED then 0xA0 else if i == 1 && lead == 0xF4 then 0x90 else 0xC0;
    low <= b < high
  }

  /** The length of the longest well-formed beginning of a sequence at the head of `bytes`. */
  function Matched(bytes: seq<Byte>, i: nat): (k: nat)
    requires bytes != [] && 1 <= i <= Expected(bytes[0]) && i <= |bytes|
    ensures i <= k <= Expected(bytes[0]) && k <= |bytes|
    ensures forall j :: i <= j < k ==> Continues(bytes[0], j, bytes[j])
    decreases Expected(bytes[0]) - i
  {
    if i < Expected(bytes[0]) && i < |bytes| && Continues(bytes[0], i, bytes[i]) then Matched(bytes, i + 1) else i
  }

  /** The number a complete sequence stands for. */
  function CodePoint(bytes: seq<Byte>, k: nat): int
    requires 1 <= k <= |bytes|
  {
    var b := (i: nat) requires i < |bytes| => bytes[i] as int;
    if k == 1 then b(0)
    else if k == 2 then (b(0) - 0xC0) * 0x40 + (b(1) - 0x80)
    else if k == 3 then (b(0) - 0xE0) * 0x1000 + (b(1) - 0x80) * 0x40 + (b(2) - 0x80)
    else if k == 4 then (b(0) - 0xF0) * 0x40000 + (b(1) - 0x80) * 0x1000 + (b(2) - 0x80) * 0x40 + (b(3) - 0x80)
    else -1
  }

  /**
   The first character of `bytes` and how many bytes it takes; a malformed beginning becomes one replacement
   character.
   */
  function DecodeChar(bytes: seq<Byte>): (r: (char, nat))
    requires bytes != []
    ensures 1 <= r.1 <= |bytes|
  {
    var expected := Expected(bytes[0]);
    if expected == 0 then (REPLACEMENT, 1)
    else
      var k := Matched(bytes, 1);
      if k == expected && IsScalar(CodePoint(bytes, k)) then (CodePoint(bytes, k) as char, k) else (REPLACEMENT, k)
  }

  /** `bytes.decode("utf-8", "replace")`. */
  function Decode(bytes: seq<Byte>): string
    decreases |bytes|
  {
    if bytes == [] then "" else var (c, k) := DecodeChar(bytes); [c] + Decode(bytes[k..])
  }

  lemma DecodeEncodedChar(c: char, rest: seq<Byte>)
    ensures DecodeChar(EncodeChar(c) + rest) == (c, |EncodeChar(c)|)
  {
    var n, bytes := c as int, EncodeChar(c) + rest;
    assert IsScalar(n);
    var k := |EncodeChar(c)|;
    LeadIsExpected(c);
    assert bytes[0] == EncodeChar(c)[0] && Expected(bytes[0]) == k;
    forall j: nat | 1 <= j < k ensures Continues(bytes[0], j, bytes[j]) {
      assert bytes[j] == EncodeChar(c)[j];
      EncodedContinues(c, j);
    }
    MatchedAll(bytes, 1);
    EncodedCodePoint(c, rest);
  }

  lemma LeadIsExpected(c: char)
    ensures Expected(EncodeChar(c)[0]) == |EncodeChar(c)|
  {
  }

  lemma EncodedContinues(c: char, j: nat)
    requires 1 <= j < |EncodeChar(c)|
    ensures Continues(EncodeChar(c)[0], j, EncodeChar(c)[j])
  {
  }

  lemma {:induction false} MatchedAll(bytes: seq<Byte>, i: nat)
    requires bytes != [] && 1 <= i <= Expected(bytes[0]) <= |bytes|
    requires forall j: nat :: 1 <= j < Expected(bytes[0]) ==> Continues(bytes[0], j, bytes[j])
    ensures Matched(bytes, i) == Expected(bytes[0])
    decreases Expected(bytes[0]) - i
  {
    if i < Expected(bytes[0]) {
      MatchedAll(bytes, i + 1);
    }
  }

  /** What is left of a byte without its leading marker bits. */
  function Less(b: int, marker: int): int {
    b - marker
  }

  /** The number of bytes section 3 of RFC 3629 gives a scalar value. */
  function LengthOf(n: int): nat {
    if n < 0x80 then 1 else if n < 0x800 then 2 else if n < 0x10000 then 3 else 4
  }

  /**
   A character is encoded as section 3 of RFC 3629 says: in the length for its value, with a lead byte that announces
   that length, continuation bytes of the form 10xxxxxx, and its value in the bits that are left.
   */
  lemma EncodeCharIsUtf8(c: char)
    ensures var (n, bytes) := (c as int, EncodeChar(c));
            && |bytes| == LengthOf(n)
            && (forall j :: 1 <= j < |bytes| ==> 0x80 <= bytes[j] < 0xC0)
            && (|bytes| == 1 ==> bytes[0] == n)
            && (|bytes| == 2 ==> 0xC0 <= bytes[0] < 0xE0 && n == Less(bytes[0], 0xC0) * 64 + Less(bytes[1], 0x80))
            && (|bytes| == 3 ==>
                  && 0xE0 <= bytes[0] < 0xF0
                  && n == (Less(bytes[0], 0xE0) * 64 + Less(bytes[1], 0x80)) * 64 + Less(bytes[2], 0x80))
            && (|bytes| == 4 ==>
                  && 0xF0 <= bytes[0] < 0xF5
                  && n == ((Less(bytes[0], 0xF0) * 64 + Less(bytes[1], 0x80)) * 64 + Less(bytes[2], 0x80)) * 64
                          + Less(bytes[3], 0x80))
  {
    var n := c as int;
    assert n / 0x1000 == n / 0x40 / 0x40 && n / 0x40000 == n / 0x1000 / 0x40;
  }

  lemma EncodedCodePoint(c: char, rest: seq<Byte>)
    ensures CodePoint(EncodeChar(c) + rest, |EncodeChar(c)|) == c as int
  {
    var n := c as int;
    assert n / 0x1000 == n / 0x40 / 0x40 && n / 0x40000 == n / 0x1000 / 0x40;
  }

  /** Decoding undoes encoding on every string. */
  lemma {:induction false} DecodeEncode(s: string)
    ensures Decode(Encode(s)) == s
  {
    if s != "" {
      var head, tail := EncodeChar(s[0]), Encode(s[1..]);
      DecodeEncodedChar(s[0], tail);
      assert (head + tail)[|head|..] == tail;
      DecodeEncode(s[1..]);
    }
  }
}
