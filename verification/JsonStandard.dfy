/** The parser of src/common/json.c against RFC 8259: it accepts every text of that grammar, but for lone surrogates
    and sizes, and more. */
module JsonStandard {
  import opened JsonText
  import opened JsonMachine
  import opened JsonGrammar
  import opened JsonLayout
  import opened JsonSyntax
  import opened JsonLanguage
  import opened JsonUnicode
  import opened Options

  // ---------------------------------------------------------------- characters

  predicate IsWhite(c: char) {
    c in " \t\n\r"
  }

  predicate IsDecimal(c: char) {
    c in "0123456789"
  }

  function DigitNumber(c: char): nat {
    match c
    case '1' => 1 case '2' => 2 case '3' => 3 case '4' => 4 case '5' => 5
    case '6' => 6 case '7' => 7 case '8' => 8 case '9' => 9 case _ => 0
  }

  predicate IsHex(c: char) {
    IsDecimal(c) || c in "abcdef" || c in "ABCDEF"
  }

  function HexNumber(c: char): nat {
    match c
    case 'a' => 10 case 'b' => 11 case 'c' => 12 case 'd' => 13 case 'e' => 14 case 'f' => 15
    case 'A' => 10 case 'B' => 11 case 'C' => 12 case 'D' => 13 case 'E' => 14 case 'F' => 15
    case _ => DigitNumber(c)
  }

  /** What may follow a backslash, besides `u`, and the byte it then stands for (section 7 of RFC 8259). */
  const TWO_CHARACTER_ESCAPES := "\"\\/bfnrt"

  function EscapedByte(c: char): nat
    requires c in TWO_CHARACTER_ESCAPES
  {
    match c
    case '"' => 0x22
    case '\\' => 0x5C
    case '/' => 0x2F
    case 'b' => 0x08
    case 'f' => 0x0C
    case 'n' => 0x0A
    case 'r' => 0x0D
    case _ => 0x09
  }

  /** The parser's white space, decimal and hexadecimal digits are exactly these, with these values. */
  lemma CharactersExact(c: char)
    ensures IsSpace(c) <==> IsWhite(c)
    ensures IsDigit(c) <==> IsDecimal(c)
    ensures IsDigit(c) ==> DigitValue(c) == DigitNumber(c)
    ensures HexValue(c) != 0xFF <==> IsHex(c)
    ensures IsHex(c) ==> HexValue(c) == HexNumber(c)
    ensures IsExponent(c) <==> c in "eE"
  {
    DecimalExact(c);
    HexExact(c);
    hide IsDigit, IsDecimal, DigitNumber, HexValue, IsHex, HexNumber;
  }

  lemma DecimalExact(c: char)
    ensures IsDigit(c) <==> IsDecimal(c)
    ensures IsDigit(c) ==> DigitValue(c) == DigitNumber(c)
  {
  }

  lemma HexExact(c: char)
    ensures HexValue(c) != 0xFF <==> IsHex(c)
    ensures IsHex(c) ==> HexValue(c) == HexNumber(c)
  {
    DecimalExact(c);
    LettersExact(c);
    hide IsDecimal, HexNumber;
  }

  lemma LettersExact(c: char)
    ensures c in "abcdef" <==> 'a' <= c <= 'f'
    ensures c in "ABCDEF" <==> 'A' <= c <= 'F'
    ensures 'a' <= c <= 'f' ==> HexNumber(c) == 10 + (c as int - 'a' as int)
    ensures 'A' <= c <= 'F' ==> HexNumber(c) == 10 + (c as int - 'A' as int)
    ensures IsDecimal(c) ==> HexNumber(c) == DigitNumber(c)
  {
  }

  /** In every text a backslash and one of the characters above are read as the byte of the table, and a backslash and
      any other character, but for `u` and a zero byte, as that character. */
  lemma EscapesRead(t: string, p: nat)
    requires p + 1 < |t| && t[p] == '\\' && t[p + 1] != 'u' && t[p + 1] != '\0'
    ensures var c := t[p + 1];
            ReadChar(t, p) == Ok([if c in TWO_CHARACTER_ESCAPES then EscapedByte(c) as char else c], p + 2)
  {
  }

  // ---------------------------------------------------------------- strings and numbers

  predicate FourHex(h: string) {
    |h| == 4 && forall c <- h :: IsHex(c)
  }

  function CodeUnit(h: string): nat
    requires |h| == 4
  {
    ((HexNumber(h[0]) * 16 + HexNumber(h[1])) * 16 + HexNumber(h[2])) * 16 + HexNumber(h[3])
  }

  /** Section 7 of RFC 8259; surrogates come in pairs. */
  predicate StandardPiece(p: Piece) {
    match p
    case Raw(c) => c >= ' ' && c != '"' && c != '\\'
    case Escaped(c) => c in TWO_CHARACTER_ESCAPES
    case Code(h) => FourHex(h) && !IsHigh(CodeUnit(h)) && !IsLow(CodeUnit(h))
    case Pair(h, l) => FourHex(h) && FourHex(l) && IsHigh(CodeUnit(h)) && IsLow(CodeUnit(l))
  }

  /** The UTF-8 sequence of a scalar value; by `OneEncoding` there is no other. */
  function Encoding(u: nat): (b: string)
    requires u < 0x11_0000 && !IsHigh(u) && !IsLow(u)
    ensures WellFormed(b) && Decode(b) == u
  {
    Utf8RoundTrip(u);
    Utf8(u)
  }

  function PieceValue(p: Piece): string
    requires StandardPiece(p)
  {
    match p
    case Raw(c) => [c]
    case Escaped(c) => [EscapedByte(c) as char]
    case Code(h) => UnitBound(h); Encoding(CodeUnit(h))
    case Pair(h, l) => Encoding(Utf16(CodeUnit(h), CodeUnit(l)))
  }

  lemma UnitBound(h: string)
    requires FourHex(h)
    ensures CodeUnit(h) < 0x1_0000
  {
    assert forall c :: HexNumber(c) < 16;
  }

  predicate StandardPieces(ps: seq<Piece>) {
    ps != [] ==> StandardPiece(ps[0]) && StandardPieces(ps[1..])
  }

  function StringValue(ps: seq<Piece>): string
    requires StandardPieces(ps)
  {
    if ps == [] then "" else PieceValue(ps[0]) + StringValue(ps[1..])
  }

  /** The counters of the parser end at 4294967287. */
  predicate Countable(n: nat) {
    n <= 4294967287
  }

  /** A string that is longer is refused, and so is a list with one item or member more. */
  lemma UncountableIsRefused(t: string, p: nat, n: nat)
    requires p <= |t| && !Countable(n)
    ensures ReadString(t, p, n).Err?
    ensures Peek(t, p) != ']' && !IsSpace(Peek(t, p)) ==> ReadItems(t, p, false, n - 1).Err?
    ensures Peek(t, p) == '"' ==> ReadMembers(t, p, false, n - 1).Err?
    ensures n - 1 <= UINT_LIMIT <==> Countable(n - 1)
  {
    hide ReadValue, ReadMember;
  }

  predicate StandardString(ps: seq<Piece>) {
    StandardPieces(ps) && Countable(|StringValue(ps)|)
  }

  predicate SomeDigits(s: string) {
    s != "" && forall c <- s :: IsDecimal(c)
  }

  /** Section 6 of RFC 8259. */
  predicate StandardNumeral(n: Numeral) {
    && SomeDigits(n.digits) && (|n.digits| > 1 ==> n.digits[0] != '0')
    && (n.fraction.Some? ==> SomeDigits(n.fraction.value))
    && (n.exponent.Some? ==>
          var x := n.exponent.value; x.e in "eE" && x.sign in ["", "+", "-"] && SomeDigits(x.digits))
  }

  function Integer(s: string): nat {
    if s == "" then 0 else Integer(s[..|s| - 1]) * 10 + DigitNumber(s[|s| - 1])
  }

  function SignedInteger(n: Numeral): int {
    if n.negative then 0 - Integer(n.digits) else Integer(n.digits)
  }

  // ---------------------------------------------------------------- documents

  predicate White(s: string) {
    forall c <- s :: IsWhite(c)
  }

  /** Sections 2 to 5 of RFC 8259. */
  predicate Standard(d: Doc)
    decreases d, 0
  {
    match d
    case NullDoc => true
    case BoolDoc(_) => true
    case NumberDoc(n) => StandardNumeral(n)
    case StringDoc(ps) => StandardString(ps)
    case ArrayDoc(items, trailing, tail) => !trailing && White(tail) && Countable(|items|) && StandardItems(items)
    case ObjectDoc(members, trailing, tail) =>
      !trailing && White(tail) && Countable(|members|) && StandardMembers(members)
  }

  predicate StandardItems(items: seq<ItemDoc>)
    decreases items, 0
  {
    items != [] ==>
      White(items[0].lead) && Standard(items[0].value) && White(items[0].trail) && StandardItems(items[1..])
  }

  predicate StandardMembers(ms: seq<MemberDoc>)
    decreases ms, 0
  {
    ms != [] ==>
      var m := ms[0];
      && White(m.lead) && StandardString(m.key) && White(m.beforeColon) && White(m.afterColon)
      && Standard(m.value) && White(m.trail) && StandardMembers(ms[1..])
  }

  /** The value of a document by RFC 8259, with strings in UTF-8.  A number with a fraction or an exponent is some
      double. */
  function Value(d: Doc): Json
    requires Standard(d)
    decreases d, 0
  {
    match d
    case NullDoc => JNull
    case BoolDoc(b) => JBool(b)
    case NumberDoc(n) => if n.fraction.Some? || n.exponent.Some? then JDouble else JInt(SignedInteger(n))
    case StringDoc(ps) => JString(StringValue(ps))
    case ArrayDoc(items, _, _) => JArray(ItemValues(items))
    case ObjectDoc(members, _, _) => JObject(MemberValues(members))
  }

  function ItemValues(items: seq<ItemDoc>): seq<Json>
    requires StandardItems(items)
    decreases items, 0
  {
    if items == [] then [] else [Value(items[0].value)] + ItemValues(items[1..])
  }

  function MemberValues(ms: seq<MemberDoc>): seq<Member>
    requires StandardMembers(ms)
    decreases ms, 0
  {
    if ms == [] then []
    else [Member(StringValue(ms[0].key), Value(ms[0].value))] + MemberValues(ms[1..])
  }

  // ---------------------------------------------------------------- where the parser gives that value

  predicate RightPiece(p: Piece) {
    match p case Pair(h, _) => FourHex(h) && !HasBit40(CodeUnit(h)) case _ => true
  }

  predicate RightPieces(ps: seq<Piece>) {
    ps != [] ==> RightPiece(ps[0]) && RightPieces(ps[1..])
  }

  /** No surrogate pair has bit 0x40 of its high half set, and integers have 64 bits. */
  predicate Exact(d: Doc)
    decreases d, 0
  {
    match d
    case NumberDoc(n) =>
      n.fraction.Some? || n.exponent.Some? || -0x8000_0000_0000_0000 <= SignedInteger(n) < 0x8000_0000_0000_0000
    case StringDoc(ps) => RightPieces(ps)
    case ArrayDoc(items, _, _) => ExactItems(items)
    case ObjectDoc(members, _, _) => ExactMembers(members)
    case _ => true
  }

  predicate ExactItems(items: seq<ItemDoc>)
    decreases items, 0
  {
    items != [] ==> Exact(items[0].value) && ExactItems(items[1..])
  }

  predicate ExactMembers(ms: seq<MemberDoc>)
    decreases ms, 0
  {
    ms != [] ==> RightPieces(ms[0].key) && Exact(ms[0].value) && ExactMembers(ms[1..])
  }

  lemma HexIsHex(h: string)
    requires FourHex(h)
    ensures IsHex4(h) && HexCode(h) == CodeUnit(h) && CodeUnit(h) < 0x1_0000
  {
    forall c | c in h ensures HexValue(c) != 0xFF && HexValue(c) == HexNumber(c) { CharactersExact(c); }
    UnitBound(h);
    hide HexValue, HexNumber, IsHex;
    assert h[0] in h && h[1] in h && h[2] in h && h[3] in h;
  }

  lemma SurrogatesAre(u: nat)
    requires u < 0x1_0000
    ensures IsSurrogate(u) <==> IsHigh(u) || IsLow(u)
  {
  }

  lemma PairMeaning(h: nat, l: nat)
    requires IsHigh(h) && IsLow(l)
    ensures var c, u := Combine(h, l), Utf16(h, l);
            c < 0x11_0000 && |Utf8(c)| == |Encoding(u)| && (Utf8(c) == Encoding(u) <==> !HasBit40(h))
  {
    SurrogatePairs(h, l);
    assert Utf16(h, l) >= 0x1_0000 && (HasBit40(h) ==> Utf16(h, l) >= 0x2_0000) by {
      if HasBit40(h) { HighBits(h); }
    }
    var c, u := Combine(h, l), Utf16(h, l);
    hide Combine, Utf16, HasBit40, WellFormed, Decode, Encoding;
    assert c >= 0x1_0000 && !IsSurrogate(c) && !IsSurrogate(u);
    Utf8RoundTrip(c);
    Utf8RoundTrip(u);
    OneEncoding(Encoding(u), Utf8(u));
  }

  lemma HighBits(h: nat)
    requires IsHigh(h) && HasBit40(h)
    ensures h - 0xD800 >= 0x40
  {
  }

  lemma PieceMeaning(p: Piece)
    requires StandardPiece(p)
    ensures ValidPiece(p) && |PieceBytes(p)| == |PieceValue(p)| && (PieceBytes(p) == PieceValue(p) <==> RightPiece(p))
  {
    match p {
      case Raw(_) =>
      case Escaped(_) =>
      case Code(h) =>
        HexIsHex(h);
        SurrogatesAre(CodeUnit(h));
        hide HexCode, CodeUnit, WellFormed, Decode, FourHex, IsHex4, Encoding;
        Utf8RoundTrip(CodeUnit(h));
        OneEncoding(Encoding(CodeUnit(h)), Utf8(CodeUnit(h)));
      case Pair(h, l) =>
        HexIsHex(h);
        HexIsHex(l);
        SurrogatesAre(CodeUnit(h));
        hide HexCode, CodeUnit, Combine, Utf16, Utf8, Encoding, FourHex, IsHex4, IsSurrogate;
        PairMeaning(CodeUnit(h), CodeUnit(l));
    }
  }

  lemma SameParts(a: string, b: string, x: string, y: string)
    requires |a| == |b|
    ensures a + x == b + y <==> a == b && x == y
  {
    if a + x == b + y {
      assert (a + x)[..|a|] == (b + y)[..|a|] && (a + x)[|a|..] == (b + y)[|a|..];
    }
  }

  lemma {:induction false} PiecesMeaning(ps: seq<Piece>)
    requires StandardPieces(ps)
    ensures (forall p <- ps :: ValidPiece(p)) && |Bytes(ps)| == |StringValue(ps)|
    ensures Bytes(ps) == StringValue(ps) <==> RightPieces(ps)
  {
    if ps == [] {
    } else {
      PieceMeaning(ps[0]);
      PiecesMeaning(ps[1..]);
      hide StandardPiece, ValidPiece, PieceBytes, PieceValue, RightPiece;
      assert forall p <- ps :: p == ps[0] || p in ps[1..];
      SameParts(PieceBytes(ps[0]), PieceValue(ps[0]), Bytes(ps[1..]), StringValue(ps[1..]));
    }
  }

  lemma StringMeaning(ps: seq<Piece>)
    requires StandardString(ps)
    ensures ValidPieces(ps) && (Bytes(ps) == StringValue(ps) <==> RightPieces(ps))
  {
    PiecesMeaning(ps);
  }

  lemma DigitsAreDigits(s: string)
    requires SomeDigits(s)
    ensures s != "" && IsDigits(s)
  {
    forall c | c in s ensures IsDigit(c) { CharactersExact(c); }
  }

  lemma {:induction false} IntegerMeaning(s: string)
    requires forall c <- s :: IsDecimal(c)
    ensures IsDigits(s) && DecimalValue(s) == Integer(s)
  {
    forall c | c in s ensures IsDigit(c) && DigitValue(c) == DigitNumber(c) { CharactersExact(c); }
    hide IsDecimal, DigitNumber;
    if s == "" {
    } else {
      IntegerMeaning(s[..|s| - 1]);
    }
  }

  lemma WrapMeaning(v: int)
    ensures Wrap64(v) == v <==> -0x8000_0000_0000_0000 <= v < 0x8000_0000_0000_0000
  {
  }

  lemma NumeralMeaning(n: Numeral)
    requires StandardNumeral(n)
    ensures ValidNumeral(n) && (NumeralValue(n) == Value(NumberDoc(n)) <==> Exact(NumberDoc(n)))
  {
    DigitsAreDigits(n.digits);
    if n.fraction.Some? { DigitsAreDigits(n.fraction.value); }
    if n.exponent.Some? {
      DigitsAreDigits(n.exponent.value.digits);
      CharactersExact(n.exponent.value.e);
    }
    IntegerMeaning(n.digits);
    WrapMeaning(SignedInteger(n));
    hide Wrap64, DecimalValue, Integer, IsDecimal;
  }

  lemma WhiteIsBlank(s: string)
    requires White(s)
    ensures IsBlank(s)
  {
    forall c | c in s ensures IsSpace(c) { CharactersExact(c); }
  }

  /** A document of RFC 8259 can be read, and the value read is that of RFC 8259 exactly when the document is exact. */
  lemma {:induction false} ValueMeaning(d: Doc)
    requires Standard(d)
    ensures Valid(d) && (Erase(d) == Value(d) <==> Exact(d))
    decreases d, 0
  {
    match d {
      case NumberDoc(n) => NumeralMeaning(n);
      case StringDoc(ps) => StringMeaning(ps);
      case ArrayDoc(items, _, tail) =>
        WhiteIsBlank(tail);
        ItemsMeaning(items);
      case ObjectDoc(members, _, tail) =>
        WhiteIsBlank(tail);
        MembersMeaning(members);
      case _ =>
    }
  }

  /** U+20000 in quotes, written as its surrogate pair, is not read as its value. */
  lemma InexactPair()
    ensures var d := StringDoc([Pair("d840", "dc00")]); Standard(d) && !Exact(d) && Erase(d) != Value(d)
  {
    var d := StringDoc([Pair("d840", "dc00")]);
    var h, l := "d840", "dc00";
    assert CodeUnit(h) == 0xD840 && CodeUnit(l) == 0xDC00;
    assert FourHex(h) && FourHex(l);
    var p := Pair(h, l);
    assert StandardPiece(p) && !RightPiece(p) && [p][1..] == [];
    EncodingBounds(Utf16(0xD840, 0xDC00));
    hide StandardPiece, RightPiece, PieceValue, Encoding;
    assert StringValue([p]) == PieceValue(p) + "";
    ValueMeaning(d);
  }

  lemma EncodingBounds(u: nat)
    requires u < 0x11_0000 && !IsHigh(u) && !IsLow(u)
    ensures |Encoding(u)| <= 4
  {
  }

  lemma SameHeads<T>(x: T, xs: seq<T>, y: T, ys: seq<T>)
    ensures [x] + xs == [y] + ys <==> x == y && xs == ys
  {
    if [x] + xs == [y] + ys {
      assert ([x] + xs)[0] == ([y] + ys)[0] && ([x] + xs)[1..] == ([y] + ys)[1..];
    }
  }

  lemma {:induction false} ItemsMeaning(items: seq<ItemDoc>)
    requires StandardItems(items)
    ensures ValidItems(items) && (EraseItems(items) == ItemValues(items) <==> ExactItems(items))
    decreases items, 0
  {
    if items == [] {
    } else {
      var i := items[0];
      ValueMeaning(i.value);
      WhiteIsBlank(i.lead);
      WhiteIsBlank(i.trail);
      hide Standard, Valid, Value, Erase, Exact, IsBlank, White;
      ItemsMeaning(items[1..]);
      SameHeads(Erase(i.value), EraseItems(items[1..]), Value(i.value), ItemValues(items[1..]));
    }
  }

  lemma {:induction false} MembersMeaning(ms: seq<MemberDoc>)
    requires StandardMembers(ms)
    ensures ValidMembers(ms) && (EraseMembers(ms) == MemberValues(ms) <==> ExactMembers(ms))
    decreases ms, 0
  {
    if ms == [] {
    } else {
      var m := ms[0];
      StringMeaning(m.key);
      ValueMeaning(m.value);
      MemberBlanks(m);
      hide Standard, Valid, Value, Erase, Exact, IsBlank, White, StandardString, Bytes, StringValue, ValidPieces;
      MembersMeaning(ms[1..]);
      SameHeads(Member(Bytes(m.key), Erase(m.value)), EraseMembers(ms[1..]),
                Member(StringValue(m.key), Value(m.value)), MemberValues(ms[1..]));
    }
  }

  lemma MemberBlanks(m: MemberDoc)
    requires White(m.lead) && White(m.beforeColon) && White(m.afterColon) && White(m.trail)
    ensures IsBlank(m.lead) && IsBlank(m.beforeColon) && IsBlank(m.afterColon) && IsBlank(m.trail)
  {
    WhiteIsBlank(m.lead);
    WhiteIsBlank(m.beforeColon);
    WhiteIsBlank(m.afterColon);
    WhiteIsBlank(m.trail);
  }

  /** Every text of RFC 8259, with white space around the value, is accepted.  Its nodes are those of a value, which is
      the value by RFC 8259 exactly when no surrogate pair has bit 0x40 of its high half set and integers have 64
      bits. */
  lemma StandardAccepted(lead: string, d: Doc, trail: string, junk: char)
    requires Standard(d) && White(lead) && White(trail)
    ensures ParseEx(lead + Show(d) + trail, junk) == Accepted(At(0), Laid(Erase(d), Null, 0))
    ensures Erase(d) == Value(d) <==> Exact(d)
  {
    WhiteIsBlank(lead);
    WhiteIsBlank(trail);
    ValueMeaning(d);
    hide Standard, Valid, Value, Exact, ParseEx, Show, Erase, Laid, IsBlank, White;
    var s := Source(lead, d, trail, "");
    assert ShowSource(s) == lead + Show(d) + trail;
    assert Shows(lead + Show(d) + trail, s);
    AcceptedLanguage(lead + Show(d) + trail, junk);
  }

  /** What the parser skips in front of a text is the byte order mark, U+FEFF in UTF-8, once. */
  lemma MarkSkipped(t: string)
    ensures WellFormed(BYTE_ORDER_MARK) && Decode(BYTE_ORDER_MARK) == 0xFEFF
    ensures SkipMark(BYTE_ORDER_MARK + t) == t
    ensures !(BYTE_ORDER_MARK <= t) ==> SkipMark(t) == t
  {
    var m := BYTE_ORDER_MARK;
    assert |m| == 3 && (m + t)[..3] == m && (m + t)[3..] == t;
  }

  /** A trailing comma and a lone minus, which that grammar does not have, are accepted: `[1,]` is read as `[1]`, and
      `-` as `0`. */
  lemma MoreIsAccepted(junk: char)
    ensures ParseEx("[1,]", junk) == Accepted(At(0), Laid(JArray([JInt(1)]), Null, 0))
    ensures ParseEx("-", junk) == Accepted(At(0), Laid(JInt(0), Null, 0))
  {
    var one := NumberDoc(Numeral(false, "1", None, None));
    var list := ArrayDoc([ItemDoc("", one, "")], true, "");
    var minus := NumberDoc(Numeral(true, "", None, None));
    ListShown(one, list);
    MinusShown(minus);
    hide Valid, ParseEx, Show, Erase, Laid, Standard, Shows;
    AloneAccepted("[1,]", list, junk);
    AloneAccepted("-", minus, junk);
  }

  lemma AloneAccepted(t: string, d: Doc, junk: char)
    requires Valid(d) && t == Show(d)
    ensures ParseEx(t, junk) == Accepted(At(0), Laid(Erase(d), Null, 0))
  {
    hide Valid, ParseEx, Show, Erase, Laid;
    var s := Source("", d, "", "");
    assert ShowSource(s) == t;
    assert Shows(t, s);
    AcceptedLanguage(t, junk);
  }

  lemma ListShown(one: Doc, list: Doc)
    requires one == NumberDoc(Numeral(false, "1", None, None)) && list == ArrayDoc([ItemDoc("", one, "")], true, "")
    ensures Valid(list) && Show(list) == "[1,]" && Erase(list) == JArray([JInt(1)]) && !Standard(list)
  {
    assert Show(one) == "1" && Valid(one);
    assert "1"[..0] == "" && Erase(one) == JInt(1);
    var items := [ItemDoc("", one, "")];
    assert items[1..] == [];
    hide Show, Erase, Valid;
    assert ShowItems([], true) == "" && EraseItems([]) == [] && ValidItems([]);
    assert ShowItems(items, true) == "1," && EraseItems(items) == [JInt(1)] && ValidItems(items);
  }

  lemma MinusShown(minus: Doc)
    requires minus == NumberDoc(Numeral(true, "", None, None))
    ensures Valid(minus) && Show(minus) == "-" && Erase(minus) == JInt(0) && !Standard(minus)
  {
  }
}
