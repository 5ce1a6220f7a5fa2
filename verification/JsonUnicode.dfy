/** `\u` escapes: the code points the parser computes and the bytes it writes for them. */
module JsonUnicode {
  import opened JsonText
  import opened JsonGrammar

  // ---------------------------------------------------------------- UTF-8, section 3 of RFC 3629

  predicate IsTail(c: char) {
    0x80 <= c as int <= 0xBF
  }

  /** One UTF-8 sequence, by the grammar of section 4 of RFC 3629. */
  predicate WellFormed(b: string) {
    match |b|
    case 1 => b[0] as int <= 0x7F
    case 2 => 0xC2 <= b[0] as int <= 0xDF && IsTail(b[1])
    case 3 =>
      var lead, next := b[0] as int, b[1] as int;
      && 0xE0 <= lead <= 0xEF && IsTail(b[1]) && IsTail(b[2])
      && (lead == 0xE0 ==> 0xA0 <= next) && (lead == 0xED ==> next <= 0x9F)
    case 4 =>
      var lead, next := b[0] as int, b[1] as int;
      && 0xF0 <= lead <= 0xF4 && IsTail(b[1]) && IsTail(b[2]) && IsTail(b[3])
      && (lead == 0xF0 ==> 0x90 <= next) && (lead == 0xF4 ==> next <= 0x8F)
    case _ => false
  }

  function Tail(c: char): nat
    requires IsTail(c)
  {
    c as int - 0x80
  }

  /** The code point a UTF-8 sequence stands for. */
  function Decode(b: string): nat
    requires WellFormed(b)
  {
    match |b|
    case 1 => b[0] as int
    case 2 => (b[0] as int - 0xC0) * 0x40 + Tail(b[1])
    case 3 => (b[0] as int - 0xE0) * 0x1000 + Tail(b[1]) * 0x40 + Tail(b[2])
    case _ => (b[0] as int - 0xF0) * 0x4_0000 + Tail(b[1]) * 0x1000 + Tail(b[2]) * 0x40 + Tail(b[3])
  }

  lemma SixBits(u: nat)
    ensures u == u / 0x1000 * 0x1000 + u / 0x40 % 0x40 * 0x40 + u % 0x40
    ensures u / 0x1000 == u / 0x4_0000 * 0x40 + u / 0x1000 % 0x40
  {
    assert u == u / 0x40 * 0x40 + u % 0x40;
    assert u / 0x40 == u / 0x1000 * 0x40 + u / 0x40 % 0x40;
  }

  lemma TwoBytes(a: nat, b: nat)
    requires b < 0x40 && 0x80 <= a * 0x40 + b <= 0x7FF
    ensures var s := [(0xC0 + a) as char, (0x80 + b) as char]; WellFormed(s) && Decode(s) == a * 0x40 + b
  {
  }

  lemma ThreeBytes(a: nat, b: nat, c: nat)
    requires b < 0x40 && c < 0x40
    requires var u := a * 0x1000 + b * 0x40 + c; 0x800 <= u <= 0xFFFF && (u < 0xD800 || u > 0xDFFF)
    ensures var s := [(0xE0 + a) as char, (0x80 + b) as char, (0x80 + c) as char];
            WellFormed(s) && Decode(s) == a * 0x1000 + b * 0x40 + c
  {
    assert a <= 0xF;
  }

  lemma FourBytes(a: nat, b: nat, c: nat, d: nat)
    requires b < 0x40 && c < 0x40 && d < 0x40
    requires 0x1_0000 <= a * 0x4_0000 + b * 0x1000 + c * 0x40 + d < 0x11_0000
    ensures var s := [(0xF0 + a) as char, (0x80 + b) as char, (0x80 + c) as char, (0x80 + d) as char];
            WellFormed(s) && Decode(s) == a * 0x4_0000 + b * 0x1000 + c * 0x40 + d
  {
    assert a <= 4;
  }

  /** The bytes written for a code point that is no surrogate are well-formed, decode back to it, and are as many
      as pass 1 counts. */
  lemma Utf8RoundTrip(u: nat)
    requires u < 0x11_0000 && !IsSurrogate(u)
    ensures WellFormed(Utf8(u)) && Decode(Utf8(u)) == u && |Utf8(u)| == Utf8Length(u)
  {
    hide WellFormed, Decode;
    assert u < 0xD800 || u > 0xDFFF;
    SixBits(u);
    if u <= 0x7F {
      OneByte(u);
    } else if u <= 0x7FF {
      TwoBytes(u / 0x40, u % 0x40);
    } else if u <= 0xFFFF {
      ThreeBytes(u / 0x1000, u / 0x40 % 0x40, u % 0x40);
    } else {
      FourBytes(u / 0x4_0000, u / 0x1000 % 0x40, u / 0x40 % 0x40, u % 0x40);
    }
  }

  /** A code point has one UTF-8 sequence. */
  lemma OneEncoding(a: string, b: string)
    requires WellFormed(a) && WellFormed(b) && Decode(a) == Decode(b)
    ensures a == b
  {
    SequenceBounds(a);
    SequenceBounds(b);
    assert |a| == |b|;
  }

  lemma SequenceBounds(b: string)
    requires WellFormed(b)
    ensures match |b|
            case 1 => Decode(b) <= 0x7F
            case 2 => 0x80 <= Decode(b) <= 0x7FF
            case 3 => 0x800 <= Decode(b) <= 0xFFFF
            case _ => |b| == 4 && 0x1_0000 <= Decode(b)
  {
  }

  lemma OneByte(u: nat)
    requires u <= 0x7F
    ensures WellFormed([u as char]) && Decode([u as char]) == u
  {
  }

  /** No escape yields a surrogate: a code unit in the surrogate range is always combined with the next one. */
  lemma EscapesAreScalars(t: string, p: nat)
    requires UnicodeEscape(t, p).Ok?
    ensures !IsSurrogate(UnicodeEscape(t, p).value)
  {
  }

  /** Every accepted `\u` escape adds one well-formed UTF-8 sequence, which decodes to the computed code point. */
  lemma EscapeWritesUtf8(t: string, p: nat)
    requires Peek(t, p) == 'u' && p <= |t| && ReadEscape(t, p).Ok?
    ensures UnicodeEscape(t, p).Ok? && WellFormed(ReadEscape(t, p).value)
    ensures Decode(ReadEscape(t, p).value) == UnicodeEscape(t, p).value
    ensures |ReadEscape(t, p).value| == Utf8Length(UnicodeEscape(t, p).value)
  {
    EscapesAreScalars(t, p);
    Utf8RoundTrip(UnicodeEscape(t, p).value);
  }

  // ---------------------------------------------------------------- surrogate pairs, section 2.2 of RFC 2781

  predicate IsHigh(u: nat) {
    0xD800 <= u <= 0xDBFF
  }

  predicate IsLow(u: nat) {
    0xDC00 <= u <= 0xDFFF
  }

  function Utf16(high: nat, low: nat): nat
    requires IsHigh(high) && IsLow(low)
  {
    0x1_0000 + (high - 0xD800) * 0x400 + (low - 0xDC00)
  }

  /** Bit 0x40 of the high surrogate. */
  predicate HasBit40(high: nat) {
    high / 0x40 % 2 == 1
  }

  /** A surrogate pair is combined as UTF-16 says exactly when bit 0x40 of the high surrogate is clear; otherwise
      the result is 0x10000 too small, because bit 16 was or-ed in where it should have been added. */
  lemma SurrogatePairs(high: nat, low: nat)
    requires IsHigh(high) && IsLow(low)
    ensures Combine(high, low) == Utf16(high, low) <==> !HasBit40(high)
    ensures HasBit40(high) ==> Combine(high, low) == Utf16(high, low) - 0x1_0000
  {
    assert high % 0x400 == high - 0xD800;
    assert low % 0x400 == low - 0xDC00;
    var h := (high % 0x400) * 0x400;
    assert h / 0x1_0000 == (high - 0xD800) / 0x40;
    assert ((high - 0xD800) / 0x40) % 2 == (high / 0x40) % 2;
  }

  /** U+20000, written as its surrogate pair, is read as U+10000. */
  lemma PairReadWrongly()
    ensures Utf16(0xD840, 0xDC00) == 0x2_0000 && Combine(0xD840, 0xDC00) == 0x1_0000
    ensures UnicodeEscape("ud840\\udc00", 0) == Ok(0x1_0000, 11)
  {
    var t := "ud840\\udc00";
    assert Hex4(t, 1) && Code4(t, 1) == 0xD840;
    assert Hex4(t, 7) && Code4(t, 7) == 0xDC00;
  }
}
