/** Characters, whitespace, digits and `\u` escapes as src/common/json.c reads them.
    A text is a sequence of bytes, one `char` per byte; reading at or past the end gives a zero byte. */
module JsonText {
  /** `state.uint_max`: the largest `unsigned int`, less the slack kept for one addition. */
  const UINT_LIMIT: nat := 0xFFFF_FFFF - 8

  datatype Parsed<+T> = Ok(value: T, next: nat) | Err

  function Peek(t: string, p: nat): char {
    if p < |t| then t[p] else '\0'
  }

  predicate IsSpace(c: char) {
    c == '\n' || c == ' ' || c == '\t' || c == '\r'
  }

  predicate IsDigit(c: char) {
    '0' <= c <= '9'
  }

  function DigitValue(c: char): nat
    requires IsDigit(c)
  {
    c as int - '0' as int
  }

  /** The bytes the second pass skips after a number has started. */
  predicate IsGreedy(c: char) {
    IsDigit(c) || c == '+' || c == '-' || c == 'e' || c == 'E' || c == '.'
  }

  function SkipSpace(t: string, p: nat): (q: nat)
    requires p <= |t|
    ensures p <= q <= |t| && !IsSpace(Peek(t, q))
    decreases |t| - p
  {
    if IsSpace(Peek(t, p)) then SkipSpace(t, p + 1) else p
  }

  function SkipDigits(t: string, p: nat): (q: nat)
    requires p <= |t|
    ensures p <= q <= |t| && !IsDigit(Peek(t, q))
    ensures forall i :: p <= i < q ==> IsDigit(t[i])
    decreases |t| - p
  {
    if IsDigit(Peek(t, p)) then SkipDigits(t, p + 1) else p
  }

  function SkipGreedy(t: string, p: nat): (q: nat)
    requires p <= |t|
    ensures p <= q <= |t| && !IsGreedy(Peek(t, q))
    decreases |t| - p
  {
    if IsGreedy(Peek(t, p)) then SkipGreedy(t, p + 1) else p
  }

  /** `hex_value`: 0xFF marks a character that is no hexadecimal digit. */
  function HexValue(c: char): nat {
    if IsDigit(c) then DigitValue(c)
    else if 'a' <= c <= 'f' then 10 + (c as int - 'a' as int)
    else if 'A' <= c <= 'F' then 10 + (c as int - 'A' as int)
    else 0xFF
  }

  predicate Hex4(t: string, p: nat) {
    forall i :: p <= i < p + 4 ==> HexValue(Peek(t, i)) != 0xFF
  }

  /** The 16-bit number written by the four hexadecimal digits at `p`. */
  function Code4(t: string, p: nat): (u: nat)
    requires Hex4(t, p)
    ensures u < 0x1_0000
  {
    HexValue(Peek(t, p)) * 0x1000 + HexValue(Peek(t, p + 1)) * 0x100
    + HexValue(Peek(t, p + 2)) * 0x10 + HexValue(Peek(t, p + 3))
  }

  /** `(u & 0xF800) == 0xD800`. */
  predicate IsSurrogate(u: nat) {
    u / 0x800 == 0xD800 / 0x800
  }

  /** `0x010000 | ((high & 0x3FF) << 10) | (low & 0x3FF)`: bit 16 is or-ed in, not added. */
  function Combine(high: nat, low: nat): nat {
    var h := (high % 0x400) * 0x400;
    (if (h / 0x1_0000) % 2 == 1 then h else h + 0x1_0000) + low % 0x400
  }

  /** What pass 1 adds to the length of a string for one code point. */
  function Utf8Length(u: nat): nat {
    if u <= 0x7F then 1 else if u <= 0x7FF then 2 else if u <= 0xFFFF then 3 else 4
  }

  /** What pass 2 writes for one code point. */
  function Utf8(u: nat): string
    requires u < 0x11_0000
  {
    if u <= 0x7F then [u as char]
    else if u <= 0x7FF then [(0xC0 + u / 0x40) as char, (0x80 + u % 0x40) as char]
    else if u <= 0xFFFF then
      [(0xE0 + u / 0x1000) as char, (0x80 + u / 0x40 % 0x40) as char, (0x80 + u % 0x40) as char]
    else
      [(0xF0 + u / 0x4_0000) as char, (0x80 + u / 0x1000 % 0x40) as char,
       (0x80 + u / 0x40 % 0x40) as char, (0x80 + u % 0x40) as char]
  }

  /** Reads a `\u` escape whose `u` is at `p`: the code point, and the position after the escape. */
  function UnicodeEscape(t: string, p: nat): (r: Parsed<nat>)
    ensures r.Ok? ==> p < r.next <= |t| && r.value < 0x11_0000
  {
    if |t| - p < 4 || !Hex4(t, p + 1) then Err
    else
      var u := Code4(t, p + 1);
      if !IsSurrogate(u) then EndOfHex(t, p + 1); Ok(u, p + 5)
      else if |t| - (p + 4) < 6 || Peek(t, p + 5) != '\\' || Peek(t, p + 6) != 'u' || !Hex4(t, p + 7) then Err
      else EndOfHex(t, p + 7); Ok(Combine(u, Code4(t, p + 7)), p + 11)
  }

  /** Four hexadecimal digits never reach past the end, because the byte there reads as zero. */
  lemma EndOfHex(t: string, p: nat)
    requires Hex4(t, p)
    ensures p + 4 <= |t|
  {
    assert HexValue(Peek(t, p + 3)) != 0xFF;
  }

  /** The byte that an escape other than `\u` stands for. */
  function SimpleEscape(c: char): char {
    match c
    case 'b' => '\U{0008}'
    case 'f' => '\U{000C}'
    case 'n' => '\n'
    case 'r' => '\r'
    case 't' => '\t'
    case _ => c
  }

  /** `b` with the bytes from `off` on replaced by `data`. */
  function Splice<T>(b: seq<T>, off: nat, data: seq<T>): seq<T>
    requires off + |data| <= |b|
  {
    b[..off] + data + b[off + |data|..]
  }

  function Fill<T>(n: nat, x: T): (r: seq<T>)
    ensures |r| == n && forall i :: 0 <= i < n ==> r[i] == x
  {
    seq(n, _ => x)
  }

  /** Two's complement 64-bit wrap-around. */
  function Wrap64(n: int): int {
    (n + 0x8000_0000_0000_0000) % 0x1_0000_0000_0000_0000 - 0x8000_0000_0000_0000
  }
}
