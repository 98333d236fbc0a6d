/** UTF-8 as Go writes and reads it: an invalid byte reads as U+FFFD and is skipped alone. */
module Utf8 {
  import opened Base64

  const REPLACEMENT: char := '\U{FFFD}'

  function EncodeRune(c: char): (bs: seq<Byte>)
    ensures bs != []
  {
    var n := c as int;
    if n < 0x80 then [n]
    else if n < 0x800 then [0xC0 + n / 64, 0x80 + n % 64]
    else if n < 0x1_0000 then [0xE0 + n / 4096, 0x80 + n / 64 % 64, 0x80 + n % 64]
    else [0xF0 + n / 262144, 0x80 + n / 4096 % 64, 0x80 + n / 64 % 64, 0x80 + n % 64]
  }

  /** The payload of a byte above its `base` marker. */
  function Bits(b: Byte, base: int): int {
    b as int - base
  }

  predicate IsTail(bs: seq<Byte>, i: nat) {
    i < |bs| && 0x80 <= bs[i] < 0xC0
  }

  /** The rune at the front and how many bytes it takes; overlong forms, surrogates and values past
      U+10FFFF are invalid. */
  function DecodeRune(bs: seq<Byte>): (r: (char, nat))
    requires bs != []
    ensures 0 < r.1 <= |bs|
  {
    var b := bs[0];
    if b < 0x80 then (b as char, 1)
    else if 0xC2 <= b < 0xE0 && IsTail(bs, 1) then
      ((Bits(b, 0xC0) * 64 + Bits(bs[1], 0x80)) as char, 2)
    else if 0xE0 <= b < 0xF0 && IsTail(bs, 1) && IsTail(bs, 2) then
      var n := Bits(b, 0xE0) * 4096 + Bits(bs[1], 0x80) * 64 + Bits(bs[2], 0x80);
      if n < 0x800 || 0xD800 <= n < 0xE000 then (REPLACEMENT, 1) else (n as char, 3)
    else if 0xF0 <= b < 0xF5 && IsTail(bs, 1) && IsTail(bs, 2) && IsTail(bs, 3) then
      var n := Bits(b, 0xF0) * 262144 + Bits(bs[1], 0x80) * 4096 + Bits(bs[2], 0x80) * 64 + Bits(bs[3], 0x80);
      if n < 0x1_0000 || n > 0x10FFFF then (REPLACEMENT, 1) else (n as char, 4)
    else (REPLACEMENT, 1)
  }

  function Encode(s: string): seq<Byte> {
    if s == "" then [] else EncodeRune(s[0]) + Encode(s[1..])
  }

  function Decode(bs: seq<Byte>): string {
    if bs == [] then ""
    else
      var (c, size) := DecodeRune(bs);
      [c] + Decode(bs[size..])
  }

  lemma SixBitGroups(n: nat)
    ensures n / 4096 * 4096 + n / 64 % 64 * 64 + n % 64 == n
    ensures n / 262144 * 262144 + n / 4096 % 64 * 4096 + n / 64 % 64 * 64 + n % 64 == n
  {
    assert n / 64 / 64 == n / 4096 && n / 4096 / 64 == n / 262144;
  }

  lemma ShortRuneReads(c: char, rest: seq<Byte>)
    requires c as int < 0x800
    ensures DecodeRune(EncodeRune(c) + rest) == (c, |EncodeRune(c)|)
  {
  }

  lemma ThreeByteRuneReads(c: char, rest: seq<Byte>)
    requires 0x800 <= c as int < 0x1_0000
    ensures DecodeRune(EncodeRune(c) + rest) == (c, |EncodeRune(c)|)
  {
    SixBitGroups(c as int);
    var bs := EncodeRune(c) + rest;
    assert bs[..3] == EncodeRune(c);
    assert Bits(bs[0], 0xE0) * 4096 + Bits(bs[1], 0x80) * 64 + Bits(bs[2], 0x80) == c as int;
  }

  lemma FourByteRuneReads(c: char, rest: seq<Byte>)
    requires 0x1_0000 <= c as int
    ensures DecodeRune(EncodeRune(c) + rest) == (c, |EncodeRune(c)|)
  {
    SixBitGroups(c as int);
    var bs := EncodeRune(c) + rest;
    assert bs[..4] == EncodeRune(c);
    assert Bits(bs[0], 0xF0) * 262144 + Bits(bs[1], 0x80) * 4096 + Bits(bs[2], 0x80) * 64 + Bits(bs[3], 0x80)
      == c as int;
  }

  lemma RuneReads(c: char, rest: seq<Byte>)
    ensures DecodeRune(EncodeRune(c) + rest) == (c, |EncodeRune(c)|)
  {
    if c as int < 0x800 {
      ShortRuneReads(c, rest);
    } else if c as int < 0x1_0000 {
      ThreeByteRuneReads(c, rest);
    } else {
      FourByteRuneReads(c, rest);
    }
  }

  lemma {:induction false} EncodeDecodes(s: string)
    ensures Decode(Encode(s)) == s
  {
    if s != "" {
      var head, rest := EncodeRune(s[0]), Encode(s[1..]);
      RuneReads(s[0], rest);
      assert (head + rest)[|head|..] == rest;
      EncodeDecodes(s[1..]);
    }
  }

  /** A character's bytes are the shortest form: its bits in order, six to each byte after the first, which
      says how many there are. */
  lemma RuneBytes(c: char)
    ensures var n, bs := c as int, EncodeRune(c);
      && (n < 0x80 ==> bs == [n])
      && (0x80 <= n < 0x800 ==>
            |bs| == 2 && 0xC0 <= bs[0] < 0xE0 && Bits(bs[0], 0xC0) * 64 + Bits(bs[1], 0x80) == n)
      && (0x800 <= n < 0x1_0000 ==>
            && |bs| == 3 && 0xE0 <= bs[0] < 0xF0
            && Bits(bs[0], 0xE0) * 4096 + Bits(bs[1], 0x80) * 64 + Bits(bs[2], 0x80) == n)
      && (0x1_0000 <= n ==>
            && |bs| == 4 && 0xF0 <= bs[0] < 0xF8
            && Bits(bs[0], 0xF0) * 262144 + Bits(bs[1], 0x80) * 4096 + Bits(bs[2], 0x80) * 64 + Bits(bs[3], 0x80) == n)
      && forall i :: 1 <= i < |bs| ==> 0x80 <= bs[i] < 0xC0
  {
    SixBitGroups(c as int);
  }

  /** A byte no character starts with reads as U+FFFD and is skipped alone. */
  lemma InvalidByte(b: Byte, rest: seq<Byte>)
    requires 0x80 <= b < 0xC2 || 0xF5 <= b
    ensures Decode([b] + rest) == ['\U{FFFD}'] + Decode(rest)
  {
    assert ([b] + rest)[1..] == rest;
  }
}
