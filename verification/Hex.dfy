/** packages/core/src/canonical.ts, toHex and fromHex: lowercase hex and back. */
module Hex {
  import opened Prelude

  predicate IsHexDigit(c: char) { '0' <= c <= '9' || 'a' <= c <= 'f' }

  function DigitOf(n: nat): (c: char)
    requires n < 16
    ensures IsHexDigit(c) && ValueOf(c) == n
  {
    if n < 10 then '0' + n as char else 'a' + (n - 10) as char
  }

  function ValueOf(c: char): (n: nat)
    requires IsHexDigit(c)
    ensures n < 16
  {
    if c <= '9' then (c - '0') as nat else 10 + (c - 'a') as nat
  }

  function PairHex(n: nat): (s: string)
    requires n < 256
    ensures |s| == 2 && IsHexDigit(s[0]) && IsHexDigit(s[1])
    ensures ValueOf(s[0]) == n / 16 && ValueOf(s[1]) == n % 16
  {
    [DigitOf(n / 16), DigitOf(n % 16)]
  }

  function PairValue(c: char, d: char): (n: nat)
    requires IsHexDigit(c) && IsHexDigit(d)
    ensures n < 256 && n / 16 == ValueOf(c) && n % 16 == ValueOf(d)
  {
    16 * ValueOf(c) + ValueOf(d)
  }

  predicate IsHex(s: string) {
    |s| % 2 == 0 && forall i :: 0 <= i < |s| ==> IsHexDigit(s[i])
  }

  function ToHex(bytes: Bytes): (s: string)
    ensures IsHex(s) && |s| == 2 * |bytes|
  {
    if bytes == [] then "" else PairHex(bytes[0] as nat) + ToHex(bytes[1..])
  }

  /** fromHex throws on an odd length or anything but lowercase hex. */
  function FromHex(hex: string): (r: Option<Bytes>)
    ensures r.Some? <==> IsHex(hex)
    ensures r.Some? ==> 2 * |r.value| == |hex|
  {
    if hex == "" then Some([])
    else if |hex| == 1 then None
    else
      var rest := FromHex(hex[2..]);
      if IsHexDigit(hex[0]) && IsHexDigit(hex[1]) && rest.Some? then
        assert forall i :: 2 <= i < |hex| ==> hex[i] == hex[2..][i - 2];
        Some([PairValue(hex[0], hex[1]) as byte] + rest.value)
      else
        None
  }

  lemma {:induction false} PairRoundTrip(n: nat)
    requires n < 256
    ensures PairValue(PairHex(n)[0], PairHex(n)[1]) == n
  {
  }

  lemma {:induction false} FromToHex(bytes: Bytes)
    ensures FromHex(ToHex(bytes)) == Some(bytes)
  {
    if bytes != [] {
      var s := ToHex(bytes);
      assert s[2..] == ToHex(bytes[1..]);
      FromToHex(bytes[1..]);
      PairRoundTrip(bytes[0] as nat);
      assert bytes == [bytes[0]] + bytes[1..];
    }
  }
}
