/** base64.StdEncoding, section 4 of RFC 4648, with Go's leniency on decoding: line breaks are skipped
    and the unused bits before the padding are not inspected. */
module Base64 {
  import opened Wrappers

  type Byte = b: int | 0 <= b < 256
  type Sextet = n: int | 0 <= n < 64

  function Letter(n: Sextet): (c: char) {
    if n < 26 then (n + 65) as char
    else if n < 52 then (n + 71) as char
    else if n < 62 then (n - 4) as char
    else if n == 62 then '+'
    else '/'
  }

  function Value(c: char): Option<Sextet> {
    if 'A' <= c <= 'Z' then Some(c as int - 65)
    else if 'a' <= c <= 'z' then Some(c as int - 71)
    else if '0' <= c <= '9' then Some(c as int + 4)
    else if c == '+' then Some(62)
    else if c == '/' then Some(63)
    else None
  }

  lemma ValueOfLetter(n: Sextet)
    ensures Value(Letter(n)) == Some(n)
    ensures Letter(n) != '=' && !IsBreak(Letter(n))
  {
  }

  // Three bytes cut into four sextets, and joined again.

  function Cut1(a: Byte): Sextet { a / 4 }
  function Cut2(a: Byte, b: Byte): Sextet { a % 4 * 16 + b / 16 }
  function Cut3(b: Byte, c: Byte): Sextet { b % 16 * 4 + c / 64 }
  function Cut4(c: Byte): Sextet { c % 64 }

  function Join1(w: Sextet, x: Sextet): Byte { w * 4 + x / 16 }
  function Join2(x: Sextet, y: Sextet): Byte { x % 16 * 16 + y / 4 }
  function Join3(y: Sextet, z: Sextet): Byte { y % 4 * 64 + z }

  function Encode(bs: seq<Byte>): string {
    if |bs| == 0 then ""
    else if |bs| == 1 then [Letter(Cut1(bs[0])), Letter(Cut2(bs[0], 0)), '=', '=']
    else if |bs| == 2 then [Letter(Cut1(bs[0])), Letter(Cut2(bs[0], bs[1])), Letter(Cut3(bs[1], 0)), '=']
    else
      [Letter(Cut1(bs[0])), Letter(Cut2(bs[0], bs[1])), Letter(Cut3(bs[1], bs[2])), Letter(Cut4(bs[2]))]
      + Encode(bs[3..])
  }

  predicate IsBreak(c: char) {
    c == '\r' || c == '\n'
  }

  function DropBreaks(s: string): string {
    if s == "" then ""
    else if IsBreak(s[0]) then DropBreaks(s[1..])
    else [s[0]] + DropBreaks(s[1..])
  }

  function DecodeQuads(s: string): Option<seq<Byte>> {
    if s == "" then Some([])
    else if |s| < 4 then None
    else
      var a :- Value(s[0]);
      var b :- Value(s[1]);
      var first := Join1(a, b);
      if s[2] == '=' then
        if s[2..] == "==" then Some([first]) else None
      else
        var c :- Value(s[2]);
        var second := Join2(b, c);
        if s[3] == '=' then
          if |s| == 4 then Some([first, second]) else None
        else
          var d :- Value(s[3]);
          var rest :- DecodeQuads(s[4..]);
          Some([first, second, Join3(c, d)] + rest)
  }

  function Decode(s: string): Option<seq<Byte>> {
    DecodeQuads(DropBreaks(s))
  }

  lemma QuadReads(w: Sextet, x: Sextet, y: Sextet, z: Sextet, tail: string)
    requires DecodeQuads(tail).Some?
    ensures DecodeQuads([Letter(w), Letter(x), Letter(y), Letter(z)] + tail)
      == Some([Join1(w, x), Join2(x, y), Join3(y, z)] + DecodeQuads(tail).value)
  {
    ValueOfLetter(w);
    ValueOfLetter(x);
    ValueOfLetter(y);
    ValueOfLetter(z);
    var s := [Letter(w), Letter(x), Letter(y), Letter(z)] + tail;
    assert s[4..] == tail;
  }

  lemma ShortQuadsRead(w: Sextet, x: Sextet, y: Sextet)
    ensures DecodeQuads([Letter(w), Letter(x), Letter(y), '=']) == Some([Join1(w, x), Join2(x, y)])
    ensures DecodeQuads([Letter(w), Letter(x), '=', '=']) == Some([Join1(w, x)])
  {
    ValueOfLetter(w);
    ValueOfLetter(x);
    ValueOfLetter(y);
    assert [Letter(w), Letter(x), '=', '='][2..] == "==";
  }

  lemma CutsJoin(a: Byte, b: Byte, c: Byte)
    ensures Join1(Cut1(a), Cut2(a, b)) == a
    ensures Join2(Cut2(a, b), Cut3(b, c)) == b
    ensures Join3(Cut3(b, c), Cut4(c)) == c
  {
    assert Cut2(a, b) / 16 == a % 4 && Cut2(a, b) % 16 == b / 16;
    assert Cut3(b, c) / 4 == b % 16 && Cut3(b, c) % 4 == c / 64;
  }

  /** The bits past the last byte do not matter. */
  lemma PaddedRead(a: Byte, b: Byte, c: Byte)
    ensures DecodeQuads([Letter(Cut1(a)), Letter(Cut2(a, b)), '=', '=']) == Some([a])
    ensures DecodeQuads([Letter(Cut1(a)), Letter(Cut2(a, b)), Letter(Cut3(b, c)), '=']) == Some([a, b])
  {
    CutsJoin(a, b, c);
    ShortQuadsRead(Cut1(a), Cut2(a, b), Cut3(b, c));
  }

  lemma ThreeBytesRead(a: Byte, b: Byte, c: Byte, tail: string, rest: seq<Byte>)
    requires DecodeQuads(tail) == Some(rest)
    ensures DecodeQuads([Letter(Cut1(a)), Letter(Cut2(a, b)), Letter(Cut3(b, c)), Letter(Cut4(c))] + tail)
      == Some([a, b, c] + rest)
  {
    CutsJoin(a, b, c);
    QuadReads(Cut1(a), Cut2(a, b), Cut3(b, c), Cut4(c), tail);
  }

  lemma LongRead(a: Byte, b: Byte, c: Byte, rest: seq<Byte>)
    requires DecodeQuads(Encode(rest)) == Some(rest)
    ensures DecodeQuads(Encode([a, b, c] + rest)) == Some([a, b, c] + rest)
  {
    ThreeBytesRead(a, b, c, Encode(rest), rest);
    var bs := [a, b, c] + rest;
    assert bs[0] == a && bs[1] == b && bs[2] == c && bs[3..] == rest;
  }

  lemma ShortRead(bs: seq<Byte>)
    requires 0 < |bs| <= 2
    ensures DecodeQuads(Encode(bs)) == Some(bs)
  {
    if |bs| == 1 {
      PaddedRead(bs[0], 0, 0);
      assert bs == [bs[0]];
    } else {
      PaddedRead(bs[0], bs[1], 0);
      assert bs == [bs[0], bs[1]];
    }
  }

  lemma {:induction false} QuadsRead(bs: seq<Byte>)
    ensures DecodeQuads(Encode(bs)) == Some(bs)
  {
    if |bs| > 2 {
      QuadsRead(bs[3..]);
      LongRead(bs[0], bs[1], bs[2], bs[3..]);
      assert bs == [bs[0], bs[1], bs[2]] + bs[3..];
    } else if bs != [] {
      ShortRead(bs);
    }
  }

  lemma {:induction false} NothingToDrop(s: string)
    requires forall i :: 0 <= i < |s| ==> !IsBreak(s[i])
    ensures DropBreaks(s) == s
  {
    if s != "" {
      NothingToDrop(s[1..]);
    }
  }

  lemma {:induction false} EncodedHasNoBreaks(bs: seq<Byte>)
    ensures forall i :: 0 <= i < |Encode(bs)| ==> !IsBreak(Encode(bs)[i])
    ensures bs != [] ==> Encode(bs) != ""
  {
    forall n: Sextet ensures !IsBreak(Letter(n)) {
      ValueOfLetter(n);
    }
    if |bs| >= 3 {
      EncodedHasNoBreaks(bs[3..]);
    }
  }

  lemma EncodeDecodes(bs: seq<Byte>)
    ensures Decode(Encode(bs)) == Some(bs)
  {
    EncodedHasNoBreaks(bs);
    NothingToDrop(Encode(bs));
    QuadsRead(bs);
  }

  // ---- what the text looks like ----

  /** The alphabet of section 4 of RFC 4648: A to Z, a to z, 0 to 9, '+' and '/', numbered in that order. */
  lemma AlphabetInOrder(n: Sextet)
    ensures Letter(0) == 'A' && Letter(26) == 'a' && Letter(52) == '0' && Letter(62) == '+' && Letter(63) == '/'
    ensures n < 62 && n != 25 && n != 51 && n != 61 ==> Letter(n + 1) as int == Letter(n) as int + 1
    ensures Value(Letter(n)) == Some(n)
  {
    ValueOfLetter(n);
  }

  function Digit(s: string, i: nat): int
    requires i < |s|
  {
    if Value(s[i]).Some? then Value(s[i]).value else 64
  }

  /** The letters' bits are the bytes' bits, three bytes to four letters, padded with zero bits and '='. */
  predicate Spells(s: string, bs: seq<Byte>) {
    if |bs| == 0 then s == ""
    else if |bs| == 1 then |s| == 4 && s[2..] == "==" && Digit(s, 0) * 64 + Digit(s, 1) == Bits(bs, 1) * 16
    else if |bs| == 2 then
      |s| == 4 && s[3] == '=' && Digit(s, 0) * 4096 + Digit(s, 1) * 64 + Digit(s, 2) == Bits(bs, 2) * 4
    else
      && |s| >= 4
      && Digit(s, 0) * 262144 + Digit(s, 1) * 4096 + Digit(s, 2) * 64 + Digit(s, 3) == Bits(bs, 3)
      && Spells(s[4..], bs[3..])
  }

  /** The first `n` bytes as one number. */
  function Bits(bs: seq<Byte>, n: nat): int
    requires n <= |bs|
  {
    if n == 0 then 0 else Bits(bs, n - 1) * 256 + bs[n - 1]
  }

  lemma CutsAreBits(a: int, b: int, c: int)
    requires 0 <= a < 256 && 0 <= b < 256 && 0 <= c < 256
    ensures Cut1(a) as int * 64 + Cut2(a, 0) as int == a * 16
    ensures Cut1(a) as int * 4096 + Cut2(a, b) as int * 64 + Cut3(b, 0) as int == (a * 256 + b) * 4
    ensures Cut1(a) as int * 262144 + Cut2(a, b) as int * 4096 + Cut3(b, c) as int * 64 + Cut4(c) as int
      == a * 65536 + b * 256 + c
  {
  }

  lemma FirstBits(bs: seq<Byte>)
    ensures |bs| >= 1 ==> Bits(bs, 1) == bs[0]
    ensures |bs| >= 2 ==> Bits(bs, 2) == bs[0] as int * 256 + bs[1]
    ensures |bs| >= 3 ==> Bits(bs, 3) == bs[0] as int * 65536 + bs[1] as int * 256 + bs[2]
  {
    assert |bs| >= 1 ==> Bits(bs, 1) == bs[0];
    assert |bs| >= 2 ==> Bits(bs, 2) == Bits(bs, 1) * 256 + bs[1];
  }

  lemma ShortSpells(bs: seq<Byte>)
    requires 1 <= |bs| <= 2
    ensures Spells(Encode(bs), bs)
  {
    FirstBits(bs);
    var a, b := bs[0], if |bs| > 1 then bs[1] else 0;
    CutsAreBits(a, b, 0);
    ValueOfLetter(Cut1(a));
    ValueOfLetter(Cut2(a, b));
    ValueOfLetter(Cut3(b, 0));
    assert |bs| == 1 ==> Encode(bs)[2..] == "==";
  }

  lemma LongSpells(bs: seq<Byte>)
    requires |bs| > 2 && Spells(Encode(bs[3..]), bs[3..])
    ensures Spells(Encode(bs), bs)
  {
    FirstBits(bs);
    var a, b, c := bs[0], bs[1], bs[2];
    CutsAreBits(a, b, c);
    ValueOfLetter(Cut1(a));
    ValueOfLetter(Cut2(a, b));
    ValueOfLetter(Cut3(b, c));
    ValueOfLetter(Cut4(c));
    assert Encode(bs)[4..] == Encode(bs[3..]);
  }

  /** So every token is written: with zero bits and '=' for padding. */
  lemma {:induction false} EncodeSpells(bs: seq<Byte>)
    ensures Spells(Encode(bs), bs)
  {
    if |bs| > 2 {
      EncodeSpells(bs[3..]);
      LongSpells(bs);
    } else if |bs| > 0 {
      ShortSpells(bs);
    }
  }

  // ---- what decodes ----

  predicate InAlphabet(c: char) {
    'A' <= c <= 'Z' || 'a' <= c <= 'z' || '0' <= c <= '9' || c == '+' || c == '/'
  }

  /** Line breaks apart: groups of four letters, the last perhaps with one or two '=' at its end. */
  predicate IsBase64(s: string) {
    Grouped(DropBreaks(s))
  }

  predicate Grouped(t: string) {
    && |t| % 4 == 0
    && (forall i :: 0 <= i < |t| - 2 ==> InAlphabet(t[i]))
    && (|t| > 0 ==>
          && (InAlphabet(t[|t| - 2]) || (t[|t| - 2] == '=' && t[|t| - 1] == '='))
          && (InAlphabet(t[|t| - 1]) || t[|t| - 1] == '='))
  }

  lemma {:induction false} GroupsDecode(t: string)
    ensures DecodeQuads(t).Some? <==> Grouped(t)
  {
    if |t| >= 4 {
      var rest := t[4..];
      GroupsDecode(rest);
      if |t| > 4 {
        GroupedTail(t);
      }
    }
  }

  predicate FourLetters(t: string)
    requires |t| >= 4
  {
    InAlphabet(t[0]) && InAlphabet(t[1]) && InAlphabet(t[2]) && InAlphabet(t[3])
  }

  lemma TailGrouped(t: string)
    requires |t| > 4 && Grouped(t)
    ensures Grouped(t[4..]) && FourLetters(t)
  {
    var rest := t[4..];
    assert |rest| >= 4;
    forall i | 0 <= i < |rest| - 2 ensures InAlphabet(rest[i]) {
      assert rest[i] == t[i + 4];
    }
  }

  lemma WholeGrouped(t: string)
    requires |t| > 4 && Grouped(t[4..]) && FourLetters(t)
    ensures Grouped(t)
  {
    var rest := t[4..];
    assert |rest| >= 4;
    forall i | 0 <= i < |t| - 2 ensures InAlphabet(t[i]) {
      assert i >= 4 ==> t[i] == rest[i - 4];
    }
  }

  lemma GroupedTail(t: string)
    requires |t| > 4
    ensures Grouped(t) <==> Grouped(t[4..]) && FourLetters(t)
  {
    if Grouped(t) {
      TailGrouped(t);
    } else if Grouped(t[4..]) && FourLetters(t) {
      WholeGrouped(t);
    }
  }

  /** Exactly such texts decode. */
  lemma OnlyBase64Decodes(s: string)
    ensures Decode(s).Some? <==> IsBase64(s)
  {
    GroupsDecode(DropBreaks(s));
  }

  /** The test vectors of section 10 of RFC 4648. */
  lemma TestVectors()
    ensures Encode([102]) == "Zg==" && Encode([102, 111]) == "Zm8=" && Encode([102, 111, 111]) == "Zm9v"
  {
  }

  /** Only carriage returns and line feeds are dropped. */
  lemma {:induction false} BreaksDropped(s: string, c: char)
    ensures multiset(DropBreaks(s))[c] == if c == '\r' || c == '\n' then 0 else multiset(s)[c]
  {
    if s != "" {
      BreaksDropped(s[1..], c);
      assert s == [s[0]] + s[1..];
    }
  }
}
