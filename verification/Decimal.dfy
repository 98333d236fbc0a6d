/** Fixed-width decimal digits, written and read back. */
module Decimal {
  import opened Wrappers

  predicate IsDigit(c: char) {
    '0' <= c <= '9'
  }

  function DigitChar(d: int): (c: char)
    requires 0 <= d < 10
    ensures IsDigit(c) && DigitValue(c) == d
  {
    (d + 48) as char
  }

  function DigitValue(c: char): int {
    c as int - 48
  }

  function Pow10(k: nat): (n: nat)
    ensures n > 0
  {
    if k == 0 then 1 else 10 * Pow10(k - 1)
  }

  /** The last `k` decimal digits of `n`, most significant first. */
  function Digits(n: nat, k: nat): (s: string)
    ensures |s| == k && forall i :: 0 <= i < k ==> IsDigit(s[i])
  {
    if k == 0 then "" else Digits(n / 10, k - 1) + [DigitChar(n % 10)]
  }

  /** What the digits of `s` spell; anything else counts for nothing. */
  function Number(s: string): nat {
    if s == "" then 0 else 10 * Number(s[..|s| - 1]) + if IsDigit(s[|s| - 1]) then DigitValue(s[|s| - 1]) else 0
  }

  predicate AllDigits(s: string) {
    forall i :: 0 <= i < |s| ==> IsDigit(s[i])
  }

  lemma {:induction false} NumberOfDigits(n: nat, k: nat)
    requires n < Pow10(k)
    ensures Number(Digits(n, k)) == n
  {
    if k != 0 {
      NumberOfDigits(n / 10, k - 1);
      var s := Digits(n, k);
      assert s[..|s| - 1] == Digits(n / 10, k - 1);
    }
  }

  /** Reads exactly `k` digits off the front. */
  function TakeDigits(s: string, k: nat): Option<(nat, string)> {
    if |s| >= k && AllDigits(s[..k]) then Some((Number(s[..k]), s[k..])) else None
  }

  lemma TakeWritten(n: nat, k: nat, rest: string)
    requires n < Pow10(k)
    ensures TakeDigits(Digits(n, k) + rest, k) == Some((n, rest))
  {
    var s := Digits(n, k) + rest;
    assert s[..k] == Digits(n, k) && s[k..] == rest;
    NumberOfDigits(n, k);
  }

  /** How many digits `s` starts with. */
  function DigitRun(s: string): (k: nat)
    ensures k <= |s| && AllDigits(s[..k])
  {
    if s == "" || !IsDigit(s[0]) then 0
    else
      var k := DigitRun(s[1..]);
      assert forall i :: 1 <= i < 1 + k ==> s[i] == s[1..][..k][i - 1];
      1 + k
  }

  lemma {:induction false} DigitRunStops(ds: string, rest: string)
    requires AllDigits(ds) && (rest == "" || !IsDigit(rest[0]))
    ensures DigitRun(ds + rest) == |ds|
  {
    if ds == "" {
      assert ds + rest == rest;
    } else {
      assert (ds + rest)[1..] == ds[1..] + rest;
      DigitRunStops(ds[1..], rest);
    }
  }
}
