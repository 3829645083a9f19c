/**
 * Invoice and customer identifiers are UUIDs. `str(uuid)` (the returned
 * `invoice_id` of a prediction and the subject of a reminder email) is the
 * canonical form: 32 lower-case hexadecimal digits of the 128-bit value,
 * most significant first, in groups of 8-4-4-4-12 separated by hyphens.
 */
module Uuids {

  /** A UUID is a 128-bit value: it fits in 32 hexadecimal digits. */
  type Uuid = n: nat | n < Pow16(32)

  predicate IsHexDigit(c: char) {
    '0' <= c <= '9' || 'a' <= c <= 'f'
  }

  function HexChar(d: nat): (c: char)
    requires d < 16
  {
    if d < 10 then ('0' as int + d) as char else ('a' as int + d - 10) as char
  }

  function HexValue(c: char): (d: nat)
    requires IsHexDigit(c)
  {
    if c <= '9' then c as int - '0' as int else c as int - 'a' as int + 10
  }

  function Pow16(n: nat): (p: nat)
    ensures p > 0
  {
    if n == 0 then 1 else 16 * Pow16(n - 1)
  }

  /** The last `n` hexadecimal digits of `v`, most significant first. */
  function Hex(v: nat, n: nat): (s: string)
    ensures |s| == n
    ensures forall i :: 0 <= i < n ==> IsHexDigit(s[i])
  {
    if n == 0 then [] else Hex(v / 16, n - 1) + [HexChar(v % 16)]
  }

  /** The value of a string of hexadecimal digits, most significant first. */
  function ParseHex(s: string): nat
    requires forall i :: 0 <= i < |s| ==> IsHexDigit(s[i])
  {
    if s == [] then 0 else 16 * ParseHex(s[..|s| - 1]) + HexValue(s[|s| - 1])
  }

  /** Hex and ParseHex are inverse on values that fit in `n` digits. */
  lemma {:induction false} ParseHexOfHex(v: nat, n: nat)
    requires v < Pow16(n)
    ensures ParseHex(Hex(v, n)) == v
  {
    if n > 0 {
      var s := Hex(v, n);
      assert s[..n - 1] == Hex(v / 16, n - 1);
      assert v / 16 < Pow16(n - 1);
      ParseHexOfHex(v / 16, n - 1);
      assert HexValue(HexChar(v % 16)) == v % 16;
    }
  }

  /** Python's `str(uuid)`. */
  function UuidString(u: Uuid): (s: string)
    ensures |s| == 36
    ensures forall i :: 0 <= i < 36 ==> (s[i] == '-' <==> i in {8, 13, 18, 23})
  {
    var h := Hex(u, 32);
    h[..8] + "-" + h[8..12] + "-" + h[12..16] + "-" + h[16..20] + "-" + h[20..]
  }

  /** The 32 digits of a canonical UUID string, hyphens removed. */
  function Digits(s: string): string
    requires |s| == 36
  {
    s[..8] + s[9..13] + s[14..18] + s[19..23] + s[24..]
  }

  lemma DigitsOfUuidString(u: Uuid)
    ensures Digits(UuidString(u)) == Hex(u, 32)
  {
    var h := Hex(u, 32);
    var s := UuidString(u);
    assert s[..8] == h[..8];
    assert s[9..13] == h[8..12];
    assert s[14..18] == h[12..16];
    assert s[19..23] == h[16..20];
    assert s[24..] == h[20..];
    assert h == h[..8] + h[8..12] + h[12..16] + h[16..20] + h[20..];
  }

  /** Distinct identifiers have distinct string forms. */
  lemma UuidStringInjective(a: Uuid, b: Uuid)
    ensures UuidString(a) == UuidString(b) ==> a == b
  {
    DigitsOfUuidString(a);
    DigitsOfUuidString(b);
    ParseHexOfHex(a, 32);
    ParseHexOfHex(b, 32);
  }
}
