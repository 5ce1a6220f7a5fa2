/** Concrete JSON documents: every way of writing a value that the parser of src/common/json.c accepts, with
    arbitrary whitespace, escapes and trailing commas.  Showing a document and reading it back gives its value,
    and whatever is read was the showing of some document. */
module JsonSyntax {
  import opened JsonText
  import opened JsonGrammar
  import opened Options

  /** One character of a string as written: itself, `\c`, `\uhhhh`, or a surrogate pair of two such. */
  datatype Piece = Raw(c: char) | Escaped(c: char) | Code(hex: string) | Pair(high: string, low: string)

  /** Digits with what may surround them. */
  datatype Numeral = Numeral(negative: bool, digits: string, fraction: Option<string>, exponent: Option<Exponent>)
  datatype Exponent = Exponent(e: char, sign: string, digits: string)

  datatype Doc =
    | NullDoc
    | BoolDoc(b: bool)
    | NumberDoc(n: Numeral)
    | StringDoc(pieces: seq<Piece>)
    | ArrayDoc(items: seq<ItemDoc>, trailing: bool, tail: string)
    | ObjectDoc(members: seq<MemberDoc>, trailing: bool, tail: string)
  datatype ItemDoc = ItemDoc(lead: string, value: Doc, trail: string)
  datatype MemberDoc = MemberDoc(lead: string, key: seq<Piece>, beforeColon: string, afterColon: string, value: Doc,
                                 trail: string)

  // ---------------------------------------------------------------- what may be written

  predicate IsBlank(s: string) {
    forall c <- s :: IsSpace(c)
  }

  predicate IsDigits(s: string) {
    forall c <- s :: IsDigit(c)
  }

  predicate IsHex4(h: string) {
    |h| == 4 && forall c <- h :: HexValue(c) != 0xFF
  }

  function HexCode(h: string): (u: nat)
    requires IsHex4(h)
    ensures u < 0x1_0000
  {
    HexValue(h[0]) * 0x1000 + HexValue(h[1]) * 0x100 + HexValue(h[2]) * 0x10 + HexValue(h[3])
  }

  predicate ValidPiece(p: Piece) {
    match p
    case Raw(c) => c != '\0' && c != '"' && c != '\\'
    case Escaped(c) => c != '\0' && c != 'u'
    case Code(h) => IsHex4(h) && !IsSurrogate(HexCode(h))
    case Pair(h, l) => IsHex4(h) && IsHex4(l) && IsSurrogate(HexCode(h))
  }

  predicate ValidPieces(ps: seq<Piece>) {
    (forall p <- ps :: ValidPiece(p)) && |Bytes(ps)| <= UINT_LIMIT
  }

  predicate ValidNumeral(n: Numeral) {
    && IsDigits(n.digits) && (|n.digits| > 1 ==> n.digits[0] != '0')
    && (n.digits == "" ==> n.negative && n.fraction.None?)
    && (n.fraction.Some? ==> n.fraction.value != "" && IsDigits(n.fraction.value))
    && (n.exponent.Some? ==>
          var x := n.exponent.value;
          IsExponent(x.e) && x.sign in ["", "+", "-"] && x.digits != "" && IsDigits(x.digits))
  }

  predicate Valid(d: Doc)
    decreases d, 0
  {
    match d
    case NullDoc => true
    case BoolDoc(_) => true
    case NumberDoc(n) => ValidNumeral(n)
    case StringDoc(ps) => ValidPieces(ps)
    case ArrayDoc(items, trailing, tail) =>
      IsBlank(tail) && (trailing ==> items != []) && |items| <= UINT_LIMIT && ValidItems(items)
    case ObjectDoc(members, trailing, tail) =>
      IsBlank(tail) && (trailing ==> members != []) && |members| <= UINT_LIMIT && ValidMembers(members)
  }

  predicate ValidItems(items: seq<ItemDoc>)
    decreases items, 0
  {
    items != [] ==>
      IsBlank(items[0].lead) && Valid(items[0].value) && IsBlank(items[0].trail) && ValidItems(items[1..])
  }

  predicate ValidMembers(ms: seq<MemberDoc>)
    decreases ms, 0
  {
    ms != [] ==>
      var m := ms[0];
      && IsBlank(m.lead) && ValidPieces(m.key) && IsBlank(m.beforeColon) && IsBlank(m.afterColon)
      && Valid(m.value) && IsBlank(m.trail) && ValidMembers(ms[1..])
  }

  // ---------------------------------------------------------------- the text and the value

  function ShowPiece(p: Piece): string {
    match p
    case Raw(c) => [c]
    case Escaped(c) => ['\\', c]
    case Code(h) => ['\\', 'u'] + h
    case Pair(h, l) => ['\\', 'u'] + h + ['\\', 'u'] + l
  }

  function PieceBytes(p: Piece): string {
    match p
    case Raw(c) => [c]
    case Escaped(c) => [SimpleEscape(c)]
    case Code(h) => if IsHex4(h) then Utf8(HexCode(h)) else ""
    case Pair(h, l) => if IsHex4(h) && IsHex4(l) then Utf8(Combine(HexCode(h), HexCode(l))) else ""
  }

  function ShowPieces(ps: seq<Piece>): string {
    if ps == [] then "" else ShowPiece(ps[0]) + ShowPieces(ps[1..])
  }

  /** The bytes a written string stands for. */
  function Bytes(ps: seq<Piece>): string {
    if ps == [] then "" else PieceBytes(ps[0]) + Bytes(ps[1..])
  }

  function ShowNumeral(n: Numeral): string {
    (if n.negative then "-" else "") + n.digits
    + (if n.fraction.Some? then "." + n.fraction.value else "")
    + (if n.exponent.Some? then ShowExponent(n.exponent.value) else "")
  }

  function ShowExponent(x: Exponent): string {
    [x.e] + x.sign + x.digits
  }

  function NumeralValue(n: Numeral): Json {
    if n.fraction.Some? || n.exponent.Some? || !IsDigits(n.digits) then JDouble
    else
      var v: int := DecimalValue(n.digits);
      JInt(Wrap64(if n.negative then -v else v))
  }

  function Show(d: Doc): string
    decreases d, 0
  {
    match d
    case NullDoc => "null"
    case BoolDoc(b) => if b then "true" else "false"
    case NumberDoc(n) => ShowNumeral(n)
    case StringDoc(ps) => "\"" + ShowPieces(ps) + "\""
    case ArrayDoc(items, trailing, tail) => "[" + ShowItems(items, trailing) + tail + "]"
    case ObjectDoc(members, trailing, tail) => "{" + ShowMembers(members, trailing) + tail + "}"
  }

  function Comma(count: nat, trailing: bool): string {
    if count > 1 || trailing then "," else ""
  }

  function ShowItems(items: seq<ItemDoc>, trailing: bool): string
    decreases items, 0
  {
    if items == [] then ""
    else
      items[0].lead + Show(items[0].value) + items[0].trail + Comma(|items|, trailing)
      + ShowItems(items[1..], trailing)
  }

  function ShowMembers(ms: seq<MemberDoc>, trailing: bool): string
    decreases ms, 0
  {
    if ms == [] then ""
    else
      ms[0].lead + ShowMember(ms[0]) + ms[0].trail + Comma(|ms|, trailing) + ShowMembers(ms[1..], trailing)
  }

  /** A key, a colon and a value. */
  function ShowMember(m: MemberDoc): string
    decreases m, 1
  {
    "\"" + (ShowPieces(m.key) + "\"") + m.beforeColon + ":" + m.afterColon + Show(m.value)
  }

  function Erase(d: Doc): Json
    decreases d, 0
  {
    match d
    case NullDoc => JNull
    case BoolDoc(b) => JBool(b)
    case NumberDoc(n) => NumeralValue(n)
    case StringDoc(ps) => JString(Bytes(ps))
    case ArrayDoc(items, _, _) => JArray(EraseItems(items))
    case ObjectDoc(members, _, _) => JObject(EraseMembers(members))
  }

  function EraseItems(items: seq<ItemDoc>): (vs: seq<Json>)
    ensures |vs| == |items|
    decreases items, 0
  {
    if items == [] then [] else [Erase(items[0].value)] + EraseItems(items[1..])
  }

  function EraseMembers(ms: seq<MemberDoc>): (vs: seq<Member>)
    ensures |vs| == |ms|
    decreases ms, 0
  {
    if ms == [] then [] else [Member(Bytes(ms[0].key), Erase(ms[0].value))] + EraseMembers(ms[1..])
  }

  // ---------------------------------------------------------------- pieces of text

  /** `s` stands at position `p` of `t`. */
  predicate Has(t: string, p: nat, s: string) {
    p + |s| <= |t| && t[p..p + |s|] == s
  }

  lemma HasParts(t: string, p: nat, a: string, b: string)
    ensures Has(t, p, a + b) <==> Has(t, p, a) && Has(t, p + |a|, b)
  {
    if p + |a| + |b| <= |t| {
      assert t[p..p + |a| + |b|] == t[p..p + |a|] + t[p + |a|..p + |a| + |b|];
      if t[p..p + |a| + |b|] == a + b {
        assert t[p..p + |a| + |b|][..|a|] == a;
        assert t[p..p + |a| + |b|][|a|..] == b;
      }
    }
  }

  lemma HasAt(t: string, p: nat, s: string, i: nat)
    requires Has(t, p, s) && i < |s|
    ensures Peek(t, p + i) == s[i]
  {
    assert t[p..p + |s|][i] == t[p + i];
  }

  lemma {:induction false} SkipsBlank(t: string, p: nat, s: string)
    requires p <= |t| && Has(t, p, s) && IsBlank(s) && !IsSpace(Peek(t, p + |s|))
    ensures SkipSpace(t, p) == p + |s|
    decreases |s|
  {
    if s == "" {
    } else {
      HasAt(t, p, s, 0);
      assert s == [s[0]] + s[1..];
      HasParts(t, p, [s[0]], s[1..]);
      SkipsBlank(t, p + 1, s[1..]);
    }
  }

  lemma {:induction false} SkipsDigits(t: string, p: nat, s: string)
    requires p <= |t| && Has(t, p, s) && IsDigits(s) && !IsDigit(Peek(t, p + |s|))
    ensures SkipDigits(t, p) == p + |s|
    decreases |s|
  {
    if s == "" {
    } else {
      HasAt(t, p, s, 0);
      assert s == [s[0]] + s[1..];
      HasParts(t, p, [s[0]], s[1..]);
      SkipsDigits(t, p + 1, s[1..]);
    }
  }

  // ---------------------------------------------------------------- reading what was shown

  lemma HexShown(t: string, p: nat, h: string)
    requires IsHex4(h) && Has(t, p, h)
    ensures Hex4(t, p) && Code4(t, p) == HexCode(h)
  {
    HasAt(t, p, h, 0);
    HasAt(t, p, h, 1);
    HasAt(t, p, h, 2);
    HasAt(t, p, h, 3);
    forall i | p <= i < p + 4 ensures HexValue(Peek(t, i)) != 0xFF {
      HasAt(t, p, h, i - p);
      assert h[i - p] in h;
    }
  }

  lemma CodeShown(t: string, q: nat, h: string)
    requires IsHex4(h) && 0 < q <= |t| && Has(t, q - 1, ['\\', 'u'] + h)
    ensures |t| - q >= 5 && Peek(t, q - 1) == '\\' && Peek(t, q) == 'u'
    ensures Hex4(t, q + 1) && Code4(t, q + 1) == HexCode(h)
  {
    HasParts(t, q - 1, ['\\', 'u'], h);
    HexShown(t, q + 1, h);
    HasAt(t, q - 1, ['\\', 'u'], 0);
    HasAt(t, q - 1, ['\\', 'u'], 1);
  }

  lemma PairCode(t: string, q: nat, h: string, l: string)
    requires ValidPiece(Pair(h, l)) && 0 < q <= |t| && Has(t, q - 1, ShowPiece(Pair(h, l)))
    ensures Peek(t, q - 1) == '\\' && Peek(t, q) == 'u'
    ensures UnicodeEscape(t, q) == Ok(Combine(HexCode(h), HexCode(l)), q + 11)
  {
    var u := ['\\', 'u'];
    assert ShowPiece(Pair(h, l)) == (u + h) + (u + l);
    HasParts(t, q - 1, u + h, u + l);
    CodeShown(t, q, h);
    CodeShown(t, q + 6, l);
    hide Hex4, Code4, HexCode, IsHex4, Has, Combine, ShowPiece;
  }

  lemma PairShown(t: string, q: nat, h: string, l: string)
    requires ValidPiece(Pair(h, l)) && 0 < q <= |t| && Has(t, q - 1, ShowPiece(Pair(h, l)))
    ensures Peek(t, q - 1) == '\\'
    ensures ReadEscape(t, q) == Ok(PieceBytes(Pair(h, l)), q + 11)
  {
    hide UnicodeEscape, HexCode, IsHex4, Has, Utf8, Combine, ShowPiece;
    PairCode(t, q, h, l);
  }

  /** An escape sequence, from the character after the backslash. */
  lemma EscapeShown(t: string, q: nat, p: Piece)
    requires ValidPiece(p) && !p.Raw? && 0 < q <= |t| && Has(t, q - 1, ShowPiece(p))
    ensures Peek(t, q - 1) == '\\'
    ensures ReadEscape(t, q) == Ok(PieceBytes(p), q - 1 + |ShowPiece(p)|)
  {
    match p {
      case Escaped(c) =>
        HasAt(t, q - 1, ['\\', c], 0);
        HasAt(t, q - 1, ['\\', c], 1);
      case Code(h) =>
        CodeShown(t, q, h);
        hide Hex4, Code4, HexCode, IsHex4, Has, Utf8;
      case Pair(h, l) =>
        PairShown(t, q, h, l);
        hide ReadEscape, PieceBytes, Has;
    }
  }

  lemma PieceShown(t: string, p: nat, x: Piece)
    requires p <= |t| && ValidPiece(x) && Has(t, p, ShowPiece(x))
    ensures p < |t| && Peek(t, p) != '\0' && Peek(t, p) != '"'
    ensures ReadChar(t, p) == Ok(PieceBytes(x), p + |ShowPiece(x)|)
  {
    HasAt(t, p, ShowPiece(x), 0);
    if !x.Raw? { EscapeShown(t, p + 1, x); }
    hide ReadEscape;
  }

  lemma {:induction false} StringShown(t: string, p: nat, n: nat, ps: seq<Piece>)
    requires p <= |t| && (forall x <- ps :: ValidPiece(x)) && n + |Bytes(ps)| <= UINT_LIMIT
    requires Has(t, p, ShowPieces(ps) + "\"")
    ensures ReadString(t, p, n) == Ok(Bytes(ps), p + |ShowPieces(ps)| + 1)
    decreases |ps|
  {
    hide PieceBytes, ShowPiece, ReadChar, ValidPiece;
    if ps == [] {
      HasAt(t, p, "\"", 0);
    } else {
      var x, rest := ps[0], ps[1..];
      assert ShowPieces(ps) + "\"" == ShowPiece(x) + (ShowPieces(rest) + "\"");
      HasParts(t, p, ShowPiece(x), ShowPieces(rest) + "\"");
      PieceShown(t, p, x);
      StringShown(t, p + |ShowPiece(x)|, n + |PieceBytes(x)|, rest);
    }
  }

  lemma ExponentShown(t: string, p: nat, x: Exponent)
    requires p <= |t| && Has(t, p, ShowExponent(x)) && !IsDigit(Peek(t, p + |ShowExponent(x)|))
    requires IsExponent(x.e) && x.sign in ["", "+", "-"] && x.digits != "" && IsDigits(x.digits)
    ensures Peek(t, p) == x.e && ReadExponent(t, p + 1) == Ok(JDouble, p + |ShowExponent(x)|)
  {
    hide Has;
    assert ShowExponent(x) == [x.e] + (x.sign + x.digits);
    HasParts(t, p, [x.e], x.sign + x.digits);
    HasParts(t, p + 1, x.sign, x.digits);
    HasAt(t, p, [x.e], 0);
    if x.sign != "" { HasAt(t, p + 1, x.sign, 0); }
    HasAt(t, p + 1 + |x.sign|, x.digits, 0);
    HasEnds(t, p + 1, x.sign);
    SkipsDigits(t, p + 1 + |x.sign|, x.digits);
    hide IsDigits;
  }

  lemma HasEnds(t: string, p: nat, s: string)
    requires Has(t, p, s)
    ensures p + |s| <= |t|
  {
  }

  function ShowFraction(n: Numeral): string {
    if n.fraction.Some? then "." + n.fraction.value else ""
  }

  function ShowPower(n: Numeral): string {
    if n.exponent.Some? then ShowExponent(n.exponent.value) else ""
  }

  lemma PowerShown(t: string, p: nat, n: Numeral)
    requires p <= |t| && ValidNumeral(n) && Has(t, p, ShowPower(n)) && !IsGreedy(Peek(t, p + |ShowPower(n)|))
    ensures n.exponent.Some? ==>
              IsExponent(Peek(t, p)) && ReadExponent(t, p + 1) == Ok(JDouble, p + |ShowPower(n)|)
    ensures n.exponent.None? ==> !IsGreedy(Peek(t, p)) && ShowPower(n) == ""
  {
    hide Has, ShowExponent, ReadExponent, IsDigits;
    if n.exponent.Some? { ExponentShown(t, p, n.exponent.value); }
  }

  lemma FractionShown(t: string, e: nat, n: Numeral)
    requires e <= |t| && ValidNumeral(n) && n.fraction.Some? && Has(t, e, ShowFraction(n))
    requires !IsDigit(Peek(t, e + |ShowFraction(n)|))
    ensures Peek(t, e) == '.' && e + 1 < e + |ShowFraction(n)| == SkipDigits(t, e + 1)
  {
    hide Has, IsDigits;
    HasParts(t, e, ".", n.fraction.value);
    HasAt(t, e, ".", 0);
    HasEnds(t, e, ".");
    SkipsDigits(t, e + 1, n.fraction.value);
  }

  /** The part of a numeral after the integer digits. */
  lemma RestShown(t: string, d: nat, e: nat, n: Numeral)
    requires ValidNumeral(n) && d <= e <= |t| && t[d..e] == n.digits && (forall i :: d <= i < e ==> IsDigit(t[i]))
    requires Has(t, e, ShowFraction(n)) && Has(t, e + |ShowFraction(n)|, ShowPower(n))
    requires !IsGreedy(Peek(t, e + |ShowFraction(n)| + |ShowPower(n)|))
    ensures !IsDigit(Peek(t, e))
    ensures AfterDigits(t, d, e, n.negative) == Ok(NumeralValue(n), e + |ShowFraction(n)| + |ShowPower(n)|)
  {
    hide Has, ShowPower, ShowExponent, ReadExponent, IsDigits;
    HasEnds(t, e, ShowFraction(n));
    PowerShown(t, e + |ShowFraction(n)|, n);
    assert IsDigits(n.digits);
    if n.fraction.Some? {
      FractionShown(t, e, n);
      assert n.digits != "";
    }
    hide ValidNumeral, DecimalValue, Wrap64;
  }

  lemma DigitsShown(t: string, d: nat, s: string)
    requires Has(t, d, s) && IsDigits(s)
    ensures d + |s| <= |t| && t[d..d + |s|] == s && forall i :: d <= i < d + |s| ==> IsDigit(t[i])
  {
    forall i | d <= i < d + |s| ensures IsDigit(t[i]) { assert t[d..d + |s|][i - d] == t[i]; }
  }

  lemma NumberStarts(t: string, p: nat, n: Numeral)
    requires p <= |t| && ValidNumeral(n) && Has(t, p, ShowNumeral(n))
    ensures Peek(t, p) == '-' <==> n.negative
    ensures n.negative || IsDigit(Peek(t, p))
    ensures var d := p + if n.negative then 1 else 0; d <= |t| && (|n.digits| > 1 ==> Peek(t, d) != '0')
  {
    NumeralParts(t, p, n);
    var d := p + if n.negative then 1 else 0;
    if n.negative { HasAt(t, p, "-", 0); }
    if n.digits != "" {
      HasAt(t, d, n.digits, 0);
      assert n.digits[0] in n.digits;
    }
    hide ShowNumeral;
  }

  lemma NumberShown(t: string, p: nat, n: Numeral)
    requires p <= |t| && ValidNumeral(n) && Has(t, p, ShowNumeral(n)) && !IsGreedy(Peek(t, p + |ShowNumeral(n)|))
    ensures IsDigit(Peek(t, p)) || Peek(t, p) == '-'
    ensures ReadNumber(t, p) == Ok(NumeralValue(n), p + |ShowNumeral(n)|)
  {
    hide Has, AfterDigits, NumeralValue, ShowFraction, ShowPower, IsDigits, ShowNumeral;
    var d := p + if n.negative then 1 else 0;
    var e := d + |n.digits|;
    NumberStarts(t, p, n);
    NumeralParts(t, p, n);
    DigitsShown(t, d, n.digits);
    RestShown(t, d, e, n);
    SkipsDigits(t, d, n.digits);
    hide ValidNumeral;
  }

  lemma NumeralParts(t: string, p: nat, n: Numeral)
    requires Has(t, p, ShowNumeral(n))
    ensures var d := p + if n.negative then 1 else 0; var e := d + |n.digits|;
            && Has(t, p, if n.negative then "-" else "") && Has(t, d, n.digits)
            && Has(t, e, ShowFraction(n)) && Has(t, e + |ShowFraction(n)|, ShowPower(n))
            && p + |ShowNumeral(n)| == e + |ShowFraction(n)| + |ShowPower(n)|
  {
    hide Has;
    var minus := if n.negative then "-" else "";
    assert ShowNumeral(n) == minus + (n.digits + (ShowFraction(n) + ShowPower(n)));
    hide ShowNumeral, ShowFraction, ShowPower;
    HasParts(t, p, minus, n.digits + (ShowFraction(n) + ShowPower(n)));
    HasParts(t, p + |minus|, n.digits, ShowFraction(n) + ShowPower(n));
    HasParts(t, p + |minus| + |n.digits|, ShowFraction(n), ShowPower(n));
  }

  // ---------------------------------------------------------------- values

  lemma WordShown(t: string, p: nat, word: string)
    requires |word| > 0 && Has(t, p, word)
    ensures HasWord(t, p, word) && Peek(t, p) == word[0]
  {
    HasAt(t, p, word, 0);
  }

  /** No value starts with whitespace, a closing bracket or a comma. */
  lemma ShowStarts(d: Doc)
    requires Valid(d)
    ensures Show(d) != "" && var c := Show(d)[0]; !IsSpace(c) && c != ']' && c != ',' && c != '}'
  {
    match d {
      case NumberDoc(n) =>
        if !n.negative { assert n.digits != "" && IsDigit(n.digits[0]); }
      case _ =>
    }
  }

  lemma Bracketed(t: string, p: nat, open: string, inner: string, tail: string, close: string)
    requires |open| == 1 && Has(t, p, open + inner + tail + close)
    ensures Peek(t, p) == open[0] && Has(t, p + 1, inner + (tail + close)) && p + 1 <= |t|
  {
    assert open + inner + tail + close == open + (inner + (tail + close));
    HasParts(t, p, open, inner + (tail + close));
    HasAt(t, p, open, 0);
  }

  lemma Quoted(t: string, p: nat, inner: string)
    requires Has(t, p, "\"" + inner + "\"")
    ensures Peek(t, p) == '"' && Has(t, p + 1, inner + "\"") && p + 1 <= |t|
  {
    assert "\"" + inner + "\"" == "\"" + (inner + "\"");
    HasParts(t, p, "\"", inner + "\"");
    HasAt(t, p, "\"", 0);
  }

  /** Reading a shown value gives the value back, if what follows could not go on with a number. */
  lemma {:induction false} ValueShown(t: string, p: nat, d: Doc)
    requires p <= |t| && Valid(d) && Has(t, p, Show(d)) && !IsGreedy(Peek(t, p + |Show(d)|))
    ensures ReadValue(t, p) == Ok(Erase(d), p + |Show(d)|)
    decreases d, 1
  {
    hide Has, ShowItems, ShowMembers, ShowPieces, ReadString, ReadItems, ReadMembers, ReadNumber, HasWord, ValidItems,
      ValidMembers, ValidNumeral, ShowNumeral, NumeralValue;
    match d {
      case NullDoc => WordShown(t, p, "null");
      case BoolDoc(b) => WordShown(t, p, Show(d));
      case NumberDoc(n) => NumberShown(t, p, n);
      case StringDoc(ps) =>
        Quoted(t, p, ShowPieces(ps));
        StringShown(t, p + 1, 0, ps);
      case ArrayDoc(items, trailing, tail) =>
        Bracketed(t, p, "[", ShowItems(items, trailing), tail, "]");
        ItemsShown(t, p + 1, 0, items, trailing, tail);
      case ObjectDoc(members, trailing, tail) =>
        Bracketed(t, p, "{", ShowMembers(members, trailing), tail, "}");
        MembersShown(t, p + 1, 0, members, trailing, tail);
    }
  }

  /** The blank `a` and whatever non-blank byte comes after it. */
  lemma BlankThen(t: string, p: nat, a: string, b: string)
    requires p <= |t| && IsBlank(a) && b != "" && !IsSpace(b[0]) && Has(t, p, a + b)
    ensures SkipSpace(t, p) == p + |a| && Has(t, p + |a|, b) && Peek(t, p + |a|) == b[0] && p + |a| < |t|
    ensures a == "" ==> Peek(t, p) == b[0]
    ensures a != "" ==> IsSpace(Peek(t, p))
  {
    HasParts(t, p, a, b);
    HasAt(t, p + |a|, b, 0);
    SkipsBlank(t, p, a);
    if a != "" { HasAt(t, p, a, 0); }
  }

  lemma BlankJoin(a: string, b: string)
    requires IsBlank(a) && IsBlank(b)
    ensures IsBlank(a + b)
  {
  }

  lemma Regroup(a: string, b: string, c: string, d: string, e: string, f: string)
    ensures a + b + c + d + e + f == a + (b + (c + (d + (e + f))))
  {
  }

  /** The first item or member `v` after its leading blank, and what comes after it. */
  lemma FirstPart(t: string, p: nat, lead: string, v: string, trail: string, comma: string, later: string, end: string)
    requires p <= |t| && IsBlank(lead) && v != "" && !IsSpace(v[0])
    requires Has(t, p, lead + v + trail + comma + later + end)
    ensures SkipSpace(t, p) == p + |lead| && Peek(t, p + |lead|) == v[0] && Has(t, p + |lead|, v)
    ensures p + |lead| + |v| <= |t| && Has(t, p + |lead| + |v|, trail + (comma + (later + end)))
  {
    hide Has, IsBlank, SkipSpace;
    Regroup(lead, v, trail, comma, later, end);
    var after := trail + (comma + (later + end));
    BlankThen(t, p, lead, v + after);
    HasParts(t, p + |lead|, v, after);
    HasEnds(t, p + |lead|, v);
  }

  lemma {:induction false} ItemsShown(t: string, p: nat, n: nat, items: seq<ItemDoc>, trailing: bool, tail: string)
    requires p <= |t| && ValidItems(items) && IsBlank(tail) && n + |items| <= UINT_LIMIT
    requires Has(t, p, ShowItems(items, trailing) + (tail + "]"))
    ensures ReadItems(t, p, false, n) == Ok(EraseItems(items), p + |ShowItems(items, trailing)| + |tail| + 1)
    decreases items, 0
  {
    hide Has, Show, ReadValue, IsBlank, Comma, SkipSpace;
    if items == [] {
      assert "" + (tail + "]") == tail + "]";
      BlankThen(t, p, tail, "]");
    } else {
      var i, rest := items[0], items[1..];
      var v, comma, later := Show(i.value), Comma(|items|, trailing), ShowItems(rest, trailing);
      ShowStarts(i.value);
      FirstPart(t, p, i.lead, v, i.trail, comma, later, tail + "]");
      var q := p + |i.lead|;
      AfterItem(t, q + |v|, n + 1, i.trail, rest, trailing, tail);
      ValueShown(t, q, i.value);
    }
  }

  /** What follows an item: a comma and the other items, or the end. */
  lemma {:induction false} AfterItem(t: string, r: nat, n: nat, trail: string, rest: seq<ItemDoc>, trailing: bool,
                                     tail: string)
    requires r <= |t| && IsBlank(trail) && ValidItems(rest) && IsBlank(tail) && n + |rest| <= UINT_LIMIT
    requires Has(t, r, trail + (Comma(|rest| + 1, trailing) + (ShowItems(rest, trailing) + (tail + "]"))))
    ensures !IsGreedy(Peek(t, r))
    ensures ReadItems(t, r, true, n)
         == Ok(EraseItems(rest),
               r + |trail| + |Comma(|rest| + 1, trailing)| + |ShowItems(rest, trailing)| + |tail| + 1)
    decreases rest, 1
  {
    hide Has, Show, ReadValue, IsBlank, SkipSpace, ValidItems;
    var later := ShowItems(rest, trailing) + (tail + "]");
    if |rest| > 0 || trailing {
      BlankThen(t, r, trail, "," + later);
      HasParts(t, r + |trail|, ",", later);
      ItemsShown(t, r + |trail| + 1, n, rest, trailing, tail);
    } else {
      NothingBetween(trail, tail, "]");
      BlankJoin(trail, tail);
      BlankThen(t, r, trail + tail, "]");
    }
  }

  lemma NothingBetween(trail: string, tail: string, close: string)
    ensures trail + ("" + ("" + (tail + close))) == (trail + tail) + close
  {
  }

  lemma {:induction false} MembersShown(t: string, p: nat, n: nat, ms: seq<MemberDoc>, trailing: bool, tail: string)
    requires p <= |t| && ValidMembers(ms) && IsBlank(tail) && n + |ms| <= UINT_LIMIT
    requires Has(t, p, ShowMembers(ms, trailing) + (tail + "}"))
    ensures ReadMembers(t, p, false, n) == Ok(EraseMembers(ms), p + |ShowMembers(ms, trailing)| + |tail| + 1)
    decreases ms, 0
  {
    hide Has, ShowMember, ReadMember, IsBlank, Comma, SkipSpace, ValidPieces, Valid;
    if ms == [] {
      assert "" + (tail + "}") == tail + "}";
      BlankThen(t, p, tail, "}");
    } else {
      var m, rest := ms[0], ms[1..];
      var kv, comma, later := ShowMember(m), Comma(|ms|, trailing), ShowMembers(rest, trailing);
      MemberStarts(m);
      FirstPart(t, p, m.lead, kv, m.trail, comma, later, tail + "}");
      var q := p + |m.lead|;
      AfterMember(t, q + |kv|, n + 1, m.trail, rest, trailing, tail);
      MemberShown(t, q, m);
    }
  }

  lemma MemberStarts(m: MemberDoc)
    ensures ShowMember(m) != "" && ShowMember(m)[0] == '"'
  {
  }

  lemma ColonParts(t: string, c: nat, before: string, after: string, v: string)
    requires c <= |t| && Has(t, c, before + (":" + (after + v)))
    requires IsBlank(before) && IsBlank(after) && v != "" && !IsSpace(v[0])
    ensures var a := c + |before|;
            && a < |t| && SkipSpace(t, c) == a && Peek(t, a) == ':'
            && SkipSpace(t, a + 1) == a + 1 + |after| && Has(t, a + 1 + |after|, v)
  {
    hide Has, IsBlank, SkipSpace;
    BlankThen(t, c, before, ":" + (after + v));
    HasParts(t, c + |before|, ":", after + v);
    BlankThen(t, c + |before| + 1, after, v);
  }

  lemma KeyParts(t: string, q: nat, key: string, before: string, after: string, v: string)
    requires Has(t, q, "\"" + key + before + ":" + after + v)
    ensures Peek(t, q) == '"' && Has(t, q + 1, key)
    ensures q + 1 + |key| <= |t| && Has(t, q + 1 + |key|, before + (":" + (after + v)))
  {
    hide Has;
    Regroup("\"", key, before, ":", after, v);
    var rest := before + (":" + (after + v));
    HasParts(t, q, "\"", key + rest);
    HasAt(t, q, "\"", 0);
    HasParts(t, q + 1, key, rest);
    HasEnds(t, q + 1, key);
  }

  /** A key, a colon and a value. */
  lemma {:induction false} MemberShown(t: string, q: nat, m: MemberDoc)
    requires q <= |t| && Has(t, q, ShowMember(m)) && !IsGreedy(Peek(t, q + |ShowMember(m)|))
    requires ValidPieces(m.key) && IsBlank(m.beforeColon) && IsBlank(m.afterColon) && Valid(m.value)
    ensures Peek(t, q) == '"'
    ensures ReadMember(t, q) == Ok(Member(Bytes(m.key), Erase(m.value)), q + |ShowMember(m)|)
    decreases m, 2
  {
    hide Has, Show, ShowPieces, ReadString, ReadValue, IsBlank, SkipSpace, Valid, Bytes, ValidPiece;
    ShowStarts(m.value);
    KeyParts(t, q, ShowPieces(m.key) + "\"", m.beforeColon, m.afterColon, Show(m.value));
    ColonParts(t, q + |ShowPieces(m.key)| + 2, m.beforeColon, m.afterColon, Show(m.value));
    StringShown(t, q + 1, 0, m.key);
    var a := q + |ShowPieces(m.key)| + 2 + |m.beforeColon|;
    ValueShown(t, a + 1 + |m.afterColon|, m.value);
  }

  lemma {:induction false} AfterMember(t: string, r: nat, n: nat, trail: string, rest: seq<MemberDoc>, trailing: bool,
                                       tail: string)
    requires r <= |t| && IsBlank(trail) && ValidMembers(rest) && IsBlank(tail) && n + |rest| <= UINT_LIMIT
    requires Has(t, r, trail + (Comma(|rest| + 1, trailing) + (ShowMembers(rest, trailing) + (tail + "}"))))
    ensures !IsGreedy(Peek(t, r))
    ensures ReadMembers(t, r, true, n)
         == Ok(EraseMembers(rest),
               r + |trail| + |Comma(|rest| + 1, trailing)| + |ShowMembers(rest, trailing)| + |tail| + 1)
    decreases rest, 1
  {
    hide Has, Show, ReadMember, IsBlank, SkipSpace, ValidMembers;
    var later := ShowMembers(rest, trailing) + (tail + "}");
    if |rest| > 0 || trailing {
      BlankThen(t, r, trail, "," + later);
      HasParts(t, r + |trail|, ",", later);
      MembersShown(t, r + |trail| + 1, n, rest, trailing, tail);
    } else {
      NothingBetween(trail, tail, "}");
      BlankJoin(trail, tail);
      BlankThen(t, r, trail + tail, "}");
    }
  }
}
