/** String helpers with the JavaScript semantics the services rely on:
    `String.prototype.trim`, the case-insensitive `contains` filter of the
    tenant listing, and `Buffer.toString('hex')` for API-key material.
 */
module Text {
  import opened Wrappers

  /** The characters `trim` removes: WhiteSpace and LineTerminator of
      ECMA-262 (tab, LF, VT, FF, CR, space, NBSP, the Unicode space
      separators, LS, PS and the byte-order mark). */
  predicate IsJsWhitespace(c: char) {
    var n := c as int;
    || n == 0x09 || n == 0x0A || n == 0x0B || n == 0x0C || n == 0x0D
    || n == 0x20 || n == 0xA0 || n == 0x1680
    || (0x2000 <= n <= 0x200A)
    || n == 0x2028 || n == 0x2029 || n == 0x202F || n == 0x205F
    || n == 0x3000 || n == 0xFEFF
  }

  /** Every character of `s` is whitespace (the empty string included). */
  predicate Blank(s: string) {
    forall i :: 0 <= i < |s| ==> IsJsWhitespace(s[i])
  }

  /** Index of the first character `trim` keeps. */
  function LeadingSpace(s: string): (k: nat)
    ensures k <= |s|
    ensures forall i :: 0 <= i < k ==> IsJsWhitespace(s[i])
    ensures k < |s| ==> !IsJsWhitespace(s[k])
  {
    if |s| == 0 || !IsJsWhitespace(s[0]) then 0 else 1 + LeadingSpace(s[1..])
  }

  /** Index where the trailing run of whitespace starts. */
  function TrailingSpace(s: string): (k: nat)
    ensures k <= |s|
    ensures forall i :: k <= i < |s| ==> IsJsWhitespace(s[i])
    ensures 0 < k ==> !IsJsWhitespace(s[k - 1])
  {
    if |s| == 0 || !IsJsWhitespace(s[|s| - 1]) then |s| else TrailingSpace(s[..|s| - 1])
  }

  /** `s.trim()`: the result is empty exactly when `s` is blank, and
      otherwise starts and ends with a non-whitespace character of `s`. */
  function Trim(s: string): (r: string)
    ensures r == "" <==> Blank(s)
    ensures r != "" ==> !IsJsWhitespace(r[0]) && !IsJsWhitespace(r[|r| - 1])
    ensures |r| <= |s|
  {
    var a := LeadingSpace(s);
    var b := TrailingSpace(s);
    if a < b then s[a..b] else ""
  }

  /** ASCII case folding, the part of Postgres `ILIKE` this model keeps. */
  function LowerChar(c: char): char {
    if 'A' <= c <= 'Z' then (c as int + 32) as char else c
  }

  function Lower(s: string): (r: string)
    ensures |r| == |s|
  {
    seq(|s|, i requires 0 <= i < |s| => LowerChar(s[i]))
  }

  /** `needle` occurs in `hay` starting at index `i`. */
  predicate OccursAt(hay: string, needle: string, i: int) {
    0 <= i <= |hay| - |needle| && hay[i..i + |needle|] == needle
  }

  /** `needle` occurs as a contiguous piece of `hay`. */
  predicate Contains(hay: string, needle: string) {
    exists i | 0 <= i <= |hay| :: OccursAt(hay, needle, i)
  }

  /** The case-insensitive substring test of `{ contains: q, mode: 'insensitive' }`. */
  predicate ContainsInsensitive(hay: string, needle: string) {
    Contains(Lower(hay), Lower(needle))
  }

  newtype Byte = b: int | 0 <= b < 256

  predicate IsHexDigit(c: char) {
    '0' <= c <= '9' || 'a' <= c <= 'f'
  }

  /** Lower-case hexadecimal digit of a nibble, as Node's hex encoding writes it. */
  function HexChar(d: int): (c: char)
    requires 0 <= d < 16
    ensures IsHexDigit(c)
  {
    if d < 10 then ('0' as int + d) as char else ('a' as int + d - 10) as char
  }

  function HexValue(c: char): (r: Option<int>)
    ensures r.Some? <==> IsHexDigit(c)
    ensures r.Some? ==> 0 <= r.value < 16 && HexChar(r.value) == c
  {
    if '0' <= c <= '9' then Some(c as int - '0' as int)
    else if 'a' <= c <= 'f' then Some(c as int - 'a' as int + 10)
    else None
  }

  /** `Buffer.from(bytes).toString('hex')`: two digits per byte, high nibble first. */
  function Hex(bytes: seq<Byte>): (r: string)
    ensures |r| == 2 * |bytes|
    ensures forall i :: 0 <= i < |r| ==> IsHexDigit(r[i])
  {
    if |bytes| == 0 then ""
    else [HexChar(bytes[0] as int / 16), HexChar(bytes[0] as int % 16)] + Hex(bytes[1..])
  }

  /** Inverse of `Hex`: reads two digits per byte, fails on odd length or a non-digit. */
  function Unhex(s: string): Option<seq<Byte>>
  {
    if |s| == 0 then Some([])
    else if |s| == 1 then None
    else match (HexValue(s[0]), HexValue(s[1]), Unhex(s[2..]))
      case (Some(hi), Some(lo), Some(rest)) => Some([(hi * 16 + lo) as Byte] + rest)
      case _ => None
  }

  /** The hex text of a byte string determines the bytes: distinct entropy
      gives distinct key text. */
  lemma {:induction false} UnhexHex(bytes: seq<Byte>)
    ensures Unhex(Hex(bytes)) == Some(bytes)
  {
    if |bytes| > 0 {
      var b := bytes[0] as int;
      var h := Hex(bytes);
      assert h[2..] == Hex(bytes[1..]);
      assert HexValue(h[0]) == Some(b / 16);
      assert HexValue(h[1]) == Some(b % 16);
      UnhexHex(bytes[1..]);
      assert (b / 16 * 16 + b % 16) as Byte == bytes[0];
      assert [bytes[0]] + bytes[1..] == bytes;
    }
  }
}
