/** Random secrets: `crypto.randomBytes(32).toString("hex")`, used both for
    subscription tokens and for admin session ids. The random bytes are a parameter. */
module Tokens {
  import opened Strings

  type Byte = x: int | 0 <= x < 256

  /** The 32 bytes `crypto.randomBytes(32)` returns. */
  type Random32 = s: seq<Byte> | |s| == 32 witness seq(32, _ => 0)

  predicate IsHexChar(c: char) {
    '0' <= c <= '9' || 'a' <= c <= 'f'
  }

  /** The lower-case hex digit for a nibble. */
  function HexDigit(k: nat): (c: char)
    requires k < 16
    ensures IsHexChar(c)
  {
    if k < 10 then ('0' as int + k) as char else ('a' as int + k - 10) as char
  }

  function HexValue(c: char): (v: nat)
    requires IsHexChar(c)
    ensures v < 16 && HexDigit(v) == c
  {
    if c <= '9' then c as int - '0' as int else c as int - 'a' as int + 10
  }

  /** `Buffer.toString("hex")`: two lower-case hex digits per byte, high nibble first. */
  function ToHex(bytes: seq<Byte>): (r: string)
    ensures |r| == 2 * |bytes|
    ensures forall i :: 0 <= i < |r| ==> IsHexChar(r[i])
  {
    if bytes == [] then []
    else [HexDigit(bytes[0] / 16), HexDigit(bytes[0] % 16)] + ToHex(bytes[1..])
  }

  /** Decodes a lower-case hex string back to bytes. */
  function FromHex(s: string): seq<Byte>
    requires |s| % 2 == 0
    requires forall i :: 0 <= i < |s| ==> IsHexChar(s[i])
  {
    if s == [] then [] else [HexValue(s[0]) * 16 + HexValue(s[1])] + FromHex(s[2..])
  }

  /** Hex encoding loses nothing: decoding it gives the bytes back. */
  lemma {:induction false} HexRoundTrip(bytes: seq<Byte>)
    ensures FromHex(ToHex(bytes)) == bytes
  {
    if bytes != [] {
      var b := bytes[0];
      var r := ToHex(bytes);
      assert r[2..] == ToHex(bytes[1..]);
      assert HexValue(r[0]) == b / 16 && HexValue(r[1]) == b % 16;
      assert HexValue(r[0]) * 16 + HexValue(r[1]) == b;
      HexRoundTrip(bytes[1..]);
    }
  }

  /** The shape of every generated token: 64 lower-case hex characters. */
  predicate IsToken(t: string) {
    |t| == 64 && forall i :: 0 <= i < |t| ==> IsHexChar(t[i])
  }

  /** `crypto.randomBytes(32).toString("hex")` for the given random bytes. */
  function NewToken(random: Random32): (t: string)
    ensures IsToken(t)
    ensures FromHex(t) == random
  {
    HexRoundTrip(random);
    ToHex(random)
  }

  /** Distinct random bytes give distinct tokens. */
  lemma NewTokenInjective(a: Random32, b: Random32)
    ensures NewToken(a) == NewToken(b) ==> a == b
  {
  }

  /** A hex token has no surrounding whitespace: `token.trim()` gives it back. */
  lemma TokenIsTrimmed(t: string)
    requires IsToken(t)
    ensures Trim(t) == t
  {
    assert LeadingSpaces(t) == 0 && TrailingSpaces(t) == 0;
  }
}
