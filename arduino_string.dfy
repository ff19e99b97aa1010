/**
 * The parts of Arduino's `String` and `Print` classes the authorisation
 * client relies on: hexadecimal and decimal rendering of numbers,
 * `toLowerCase`, `startsWith` and `indexOf`, with the inverse parsers
 * that state what the renderings mean.
 */
module ArduinoString {
  import opened Platform

  predicate IsLowerHexDigit(c: char) {
    '0' <= c <= '9' || 'a' <= c <= 'f'
  }

  predicate IsDecimalDigit(c: char) {
    '0' <= c <= '9'
  }

  /** The digit for a value below sixteen, in lower case. */
  function HexDigit(v: int): (c: char)
    requires 0 <= v < 16
    ensures IsLowerHexDigit(c)
    ensures DigitValue(c) == v
  {
    if v < 10 then ('0' as int + v) as char else ('a' as int + v - 10) as char
  }

  /** The value of a hexadecimal (or decimal) digit in either case, or -1. */
  function DigitValue(c: char): (v: int)
    ensures -1 <= v < 16
    ensures IsDecimalDigit(c) ==> v == c as int - '0' as int
    ensures v == -1 <==> !(IsLowerHexDigit(c) || 'A' <= c <= 'F')
  {
    if '0' <= c <= '9' then c as int - '0' as int
    else if 'a' <= c <= 'f' then c as int - 'a' as int + 10
    else if 'A' <= c <= 'F' then c as int - 'A' as int + 10
    else -1
  }

  /** `String(b, HEX)`: the digits of `b` in base sixteen, without leading
      zeros (the core library renders them with `utoa`, in lower case). */
  function Hex(b: byte): (r: string)
    ensures |r| == (if b < 0x10 then 1 else 2)
    ensures forall i :: 0 <= i < |r| ==> IsLowerHexDigit(r[i])
    ensures b < 0x10 ==> DigitValue(r[0]) == b as int
    ensures b >= 0x10 ==> DigitValue(r[0]) * 16 + DigitValue(r[1]) == b as int && r[0] != '0'
  {
    if b < 0x10 then [HexDigit(b as int)]
    else [HexDigit(b as int / 16), HexDigit(b as int % 16)]
  }

  /** `Print::print(n, DEC)`: the decimal digits of `n`, without leading zeros. */
  function Decimal(n: nat): (r: string)
    ensures |r| >= 1
    ensures forall i :: 0 <= i < |r| ==> IsDecimalDigit(r[i])
    ensures r[0] == '0' ==> n == 0
    decreases n
  {
    if n < 10 then [HexDigit(n)] else Decimal(n / 10) + [HexDigit(n % 10)]
  }

  /** How a reader of a decimal field recovers the number: `None` for an
      empty field or one holding anything but digits. */
  function ParseDecimal(s: string): (r: Option<nat>)
    ensures r.Some? <==> |s| >= 1 && forall i :: 0 <= i < |s| ==> IsDecimalDigit(s[i])
    decreases |s|
  {
    if s == [] || !IsDecimalDigit(s[|s| - 1]) then None
    else if |s| == 1 then Some(DigitValue(s[0]))
    else match ParseDecimal(s[..|s| - 1])
      case None => None
      case Some(high) => Some(high * 10 + DigitValue(s[|s| - 1]))
  }

  /** Rendering a number in decimal and reading it back gives the number. */
  lemma {:induction false} DecimalRoundTrip(n: nat)
    ensures ParseDecimal(Decimal(n)) == Some(n)
    decreases n
  {
    if n >= 10 {
      DecimalRoundTrip(n / 10);
      var s := Decimal(n);
      assert s[..|s| - 1] == Decimal(n / 10);
    }
  }

  /** The `tolower` of one character: only `A`..`Z` change. */
  function LowerChar(c: char): char {
    if 'A' <= c <= 'Z' then (c as int - 'A' as int + 'a' as int) as char else c
  }

  /** `String::toLowerCase`, which lowers every character in place. */
  function ToLowerCase(s: string): (r: string)
    ensures |r| == |s|
    ensures forall i :: 0 <= i < |s| ==> !('A' <= r[i] <= 'Z')
    ensures forall i :: 0 <= i < |s| && !('A' <= s[i] <= 'Z') ==> r[i] == s[i]
    ensures forall i :: 0 <= i < |s| && 'A' <= s[i] <= 'Z' ==>
              r[i] as int == s[i] as int - 'A' as int + 'a' as int
  {
    seq(|s|, i requires 0 <= i < |s| => LowerChar(s[i]))
  }

  /** `String::startsWith`. */
  predicate StartsWith(s: string, prefix: string) {
    |prefix| <= |s| && s[..|prefix|] == prefix
  }

  /** `p` occurs in `s` at index `k`. */
  predicate OccursAt(s: string, p: string, k: int) {
    0 <= k && k + |p| <= |s| && s[k..k + |p|] == p
  }

  /** `String::indexOf(p, from)`: the first index at or after `from` where
      `p` occurs, or -1; like the library, -1 when `from` is past the end. */
  function IndexOfFrom(s: string, p: string, from: nat): (r: int)
    ensures r == -1 || (from <= r < |s| && OccursAt(s, p, r))
    ensures forall j :: from <= j < |s| && (r == -1 || j < r) ==> !OccursAt(s, p, j)
    decreases |s| - from
  {
    if from >= |s| || from + |p| > |s| then -1
    else if s[from..from + |p|] == p then from
    else IndexOfFrom(s, p, from + 1)
  }

  /** `String::indexOf(p)`. */
  function IndexOf(s: string, p: string): (r: int)
    ensures r == -1 || (0 <= r < |s| && OccursAt(s, p, r))
    ensures forall j :: 0 <= j < |s| && (r == -1 || j < r) ==> !OccursAt(s, p, j)
  {
    IndexOfFrom(s, p, 0)
  }
}
