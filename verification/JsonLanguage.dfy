/** The language of the parser of src/common/json.c, exactly: the texts it accepts are the showings of concrete
    documents, and the value it returns is the value of the document. */
module JsonLanguage {
  import opened JsonText
  import opened JsonMachine
  import opened JsonGrammar
  import opened JsonLayout
  import opened JsonSyntax
  import opened Options
  import JsonTheorems

  // ---------------------------------------------------------------- whatever is read was shown

  lemma HasSlice(t: string, p: nat, q: nat)
    requires p <= q <= |t|
    ensures Has(t, p, t[p..q]) && p + |t[p..q]| == q
  {
  }

  lemma {:induction false} SkippedIsBlank(t: string, p: nat)
    requires p <= |t|
    ensures IsBlank(t[p..SkipSpace(t, p)])
    decreases |t| - p
  {
    if !IsSpace(Peek(t, p)) {
    } else {
      SkippedIsBlank(t, p + 1);
      assert t[p..SkipSpace(t, p)] == [t[p]] + t[p + 1..SkipSpace(t, p)];
    }
  }

  lemma HexRead(t: string, p: nat)
    requires Hex4(t, p)
    ensures p + 4 <= |t| && IsHex4(t[p..p + 4]) && HexCode(t[p..p + 4]) == Code4(t, p)
  {
    EndOfHex(t, p);
    var h := t[p..p + 4];
    assert forall i :: 0 <= i < 4 ==> h[i] == Peek(t, p + i);
  }

  lemma CodeRead(t: string, p: nat)
    requires p < |t| && t[p] == '\\' && ReadEscape(t, p + 1).Ok? && Peek(t, p + 1) == 'u'
    requires Hex4(t, p + 2) && !IsSurrogate(Code4(t, p + 2))
    ensures p + 6 <= |t| && var x := Code(t[p + 2..p + 6]);
            ValidPiece(x) && Has(t, p, ShowPiece(x)) && ReadEscape(t, p + 1) == Ok(PieceBytes(x), p + 6)
  {
    HexRead(t, p + 2);
    assert t[p..p + 6] == ['\\', 'u'] + t[p + 2..p + 6];
    hide HexCode, Code4, Utf8;
  }

  lemma PairSlices(t: string, p: nat)
    requires p + 12 <= |t| && t[p] == '\\' && t[p + 1] == 'u' && t[p + 6] == '\\' && t[p + 7] == 'u'
    ensures Has(t, p, ['\\', 'u'] + t[p + 2..p + 6] + ['\\', 'u'] + t[p + 8..p + 12])
  {
  }

  lemma PairRead(t: string, p: nat)
    requires p < |t| && t[p] == '\\' && ReadEscape(t, p + 1).Ok? && Peek(t, p + 1) == 'u'
    requires Hex4(t, p + 2) && IsSurrogate(Code4(t, p + 2))
    ensures p + 12 <= |t| && var x := Pair(t[p + 2..p + 6], t[p + 8..p + 12]);
            ValidPiece(x) && Has(t, p, ShowPiece(x)) && ReadEscape(t, p + 1) == Ok(PieceBytes(x), p + 12)
  {
    HexRead(t, p + 2);
    HexRead(t, p + 8);
    PairSlices(t, p);
    hide HexCode, Code4, Hex4, IsHex4, Utf8, Combine, Has;
  }

  lemma PieceRead(t: string, p: nat) returns (x: Piece)
    requires p < |t| && t[p] != '\0' && t[p] != '"' && ReadChar(t, p).Ok?
    ensures ValidPiece(x) && Has(t, p, ShowPiece(x)) && ReadChar(t, p) == Ok(PieceBytes(x), p + |ShowPiece(x)|)
  {
    if t[p] != '\\' {
      x := Raw(t[p]);
      OneChar(t, p, [t[p]]);
    } else {
      x := EscapeRead(t, p);
    }
    hide ReadEscape, PieceBytes;
  }

  lemma EscapeRead(t: string, p: nat) returns (x: Piece)
    requires p < |t| && t[p] == '\\' && ReadEscape(t, p + 1).Ok?
    ensures ValidPiece(x) && Has(t, p, ShowPiece(x)) && ReadEscape(t, p + 1) == Ok(PieceBytes(x), p + |ShowPiece(x)|)
  {
    hide Utf8, HexCode, Code4, Hex4, Combine;
    assert p + 1 < |t|;
    if t[p + 1] != 'u' {
      x := Escaped(t[p + 1]);
      assert t[p..p + 2] == ['\\', t[p + 1]];
    } else if !IsSurrogate(Code4(t, p + 2)) {
      x := Code(t[p + 2..p + 6]);
      CodeRead(t, p);
    } else {
      x := Pair(t[p + 2..p + 6], t[p + 8..p + 12]);
      PairRead(t, p);
    }
  }

  lemma {:induction false} StringRead(t: string, p: nat, n: nat) returns (ps: seq<Piece>)
    requires p <= |t| && ReadString(t, p, n).Ok?
    ensures (forall x <- ps :: ValidPiece(x)) && n + |Bytes(ps)| <= UINT_LIMIT
    ensures Has(t, p, ShowPieces(ps) + "\"")
    ensures ReadString(t, p, n) == Ok(Bytes(ps), p + |ShowPieces(ps)| + 1)
    decreases |t| - p
  {
    hide ReadChar, PieceBytes, ShowPiece, ValidPiece;
    if Peek(t, p) == '"' {
      ps := [];
      assert t[p..p + 1] == "\"";
      assert ShowPieces(ps) + "\"" == "\"";
    } else {
      var x := PieceRead(t, p);
      var rest := StringRead(t, p + |ShowPiece(x)|, n + |PieceBytes(x)|);
      ps := [x] + rest;
      assert ps[1..] == rest;
      HasParts(t, p, ShowPiece(x), ShowPieces(rest) + "\"");
      assert ShowPieces(ps) + "\"" == ShowPiece(x) + (ShowPieces(rest) + "\"");
      hide Has;
    }
  }

  lemma SliceIsDigits(t: string, p: nat, q: nat)
    requires p <= q <= |t| && forall i :: p <= i < q ==> IsDigit(t[i])
    ensures IsDigits(t[p..q])
  {
  }

  lemma ExponentRead(t: string, p: nat) returns (x: Exponent)
    requires p < |t| && IsExponent(t[p]) && ReadExponent(t, p + 1).Ok?
    ensures IsExponent(x.e) && x.sign in ["", "+", "-"] && x.digits != "" && IsDigits(x.digits)
    ensures Has(t, p, ShowExponent(x)) && ReadExponent(t, p + 1).next == p + |ShowExponent(x)|
  {
    var s := if Peek(t, p + 1) == '+' || Peek(t, p + 1) == '-' then p + 2 else p + 1;
    var y := SkipDigits(t, s);
    x := Exponent(t[p], t[p + 1..s], t[s..y]);
    SliceIsDigits(t, s, y);
    ThreeSlices(t, p, s, y);
    SignSlice(t, p + 1, s);
    hide IsDigits;
  }

  lemma ThreeSlices(t: string, p: nat, s: nat, y: nat)
    requires p < s <= y <= |t|
    ensures t[p..y] == [t[p]] + t[p + 1..s] + t[s..y]
  {
  }

  lemma SignSlice(t: string, p: nat, s: nat)
    requires p <= s <= |t| && s <= p + 1
    ensures t[p..s] == if s == p then "" else [t[p]]
  {
  }

  lemma FractionRead(t: string, e: nat) returns (fraction: Option<string>)
    requires e <= |t| && !IsDigit(Peek(t, e)) && (Peek(t, e) == '.' ==> SkipDigits(t, e + 1) > e + 1)
    ensures fraction.Some? <==> Peek(t, e) == '.'
    ensures fraction.Some? ==> fraction.value != "" && IsDigits(fraction.value) && Has(t, e, "." + fraction.value)
    ensures fraction.Some? ==> e + 1 + |fraction.value| == SkipDigits(t, e + 1)
  {
    fraction := None;
    if Peek(t, e) == '.' {
      var f := SkipDigits(t, e + 1);
      SliceIsDigits(t, e + 1, f);
      assert t[e..f] == "." + t[e + 1..f];
      fraction := Some(t[e + 1..f]);
    }
  }

  lemma PowerRead(t: string, f: nat) returns (exponent: Option<Exponent>)
    requires f <= |t| && (IsExponent(Peek(t, f)) ==> ReadExponent(t, f + 1).Ok?)
    ensures exponent.Some? <==> IsExponent(Peek(t, f))
    ensures exponent.Some? ==>
              var x := exponent.value;
              && IsExponent(x.e) && x.sign in ["", "+", "-"] && x.digits != "" && IsDigits(x.digits)
              && Has(t, f, ShowExponent(x)) && ReadExponent(t, f + 1).next == f + |ShowExponent(x)|
  {
    exponent := None;
    if IsExponent(Peek(t, f)) {
      var x := ExponentRead(t, f);
      exponent := Some(x);
    }
    hide ReadExponent, ShowExponent, Has;
  }

  /** The fraction and the exponent that follow the digits `t[d..e]`. */
  lemma RestRead(t: string, d: nat, e: nat, negative: bool) returns (n: Numeral)
    requires d <= e <= |t| && (forall i :: d <= i < e ==> IsDigit(t[i])) && AfterDigits(t, d, e, negative).Ok?
    requires (e - d > 1 ==> t[d] != '0') && (e == d ==> negative) && !IsDigit(Peek(t, e))
    ensures n.negative == negative && n.digits == t[d..e] && ValidNumeral(n)
    ensures Has(t, e, ShowFraction(n)) && Has(t, e + |ShowFraction(n)|, ShowPower(n))
    ensures AfterDigits(t, d, e, negative) == Ok(NumeralValue(n), e + |ShowFraction(n)| + |ShowPower(n)|)
  {
    hide Has, ShowExponent, ReadExponent, DecimalValue, Wrap64, IsDigits;
    SliceIsDigits(t, d, e);
    var fraction := FractionRead(t, e);
    var f := if fraction.Some? then e + 1 + |fraction.value| else e;
    var exponent := PowerRead(t, f);
    n := Numeral(negative, t[d..e], fraction, exponent);
    HasNothing(t, e);
    HasNothing(t, f);
  }

  lemma HasNothing(t: string, p: nat)
    requires p <= |t|
    ensures Has(t, p, "")
  {
  }

  lemma NumeralPieces(n: Numeral)
    ensures ShowNumeral(n) == (if n.negative then "-" else "") + (n.digits + (ShowFraction(n) + ShowPower(n)))
  {
    var minus, a, b, c := if n.negative then "-" else "", n.digits, ShowFraction(n), ShowPower(n);
    assert ShowNumeral(n) == minus + a + b + c;
    hide ShowNumeral, ShowFraction, ShowPower;
    assert minus + a + b + c == minus + (a + (b + c));
  }

  lemma NumeralWhole(t: string, p: nat, n: Numeral)
    requires var d := p + if n.negative then 1 else 0; var e := d + |n.digits|;
             && Has(t, p, if n.negative then "-" else "") && Has(t, d, n.digits)
             && Has(t, e, ShowFraction(n)) && Has(t, e + |ShowFraction(n)|, ShowPower(n))
    ensures Has(t, p, ShowNumeral(n))
  {
    hide Has;
    var minus := if n.negative then "-" else "";
    hide ShowNumeral, ShowFraction, ShowPower;
    NumeralPieces(n);
    HasParts(t, p + |minus| + |n.digits|, ShowFraction(n), ShowPower(n));
    HasParts(t, p + |minus|, n.digits, ShowFraction(n) + ShowPower(n));
    HasParts(t, p, minus, n.digits + (ShowFraction(n) + ShowPower(n)));
  }

  lemma NumberRead(t: string, p: nat) returns (n: Numeral)
    requires p <= |t| && (IsDigit(Peek(t, p)) || Peek(t, p) == '-') && ReadNumber(t, p).Ok?
    ensures ValidNumeral(n) && Has(t, p, ShowNumeral(n))
    ensures ReadNumber(t, p) == Ok(NumeralValue(n), p + |ShowNumeral(n)|)
  {
    hide AfterDigits, NumeralValue, ShowFraction, ShowPower, ValidNumeral, ShowNumeral;
    var negative := Peek(t, p) == '-';
    var d := if negative then p + 1 else p;
    var e := SkipDigits(t, d);
    n := RestRead(t, d, e, negative);
    assert Has(t, p, if negative then "-" else "") by {
      if negative { OneChar(t, p, "-"); } else { HasNothing(t, p); }
    }
    HasSlice(t, d, e);
    hide Has;
    NumeralWhole(t, p, n);
    NumeralParts(t, p, n);
  }

  /** Every value read is the value of some document, whose text is what was read. */
  lemma {:induction false} ValueRead(t: string, p: nat) returns (d: Doc)
    requires p <= |t| && ReadValue(t, p).Ok?
    ensures Valid(d) && Has(t, p, Show(d)) && ReadValue(t, p) == Ok(Erase(d), p + |Show(d)|)
    decreases |t| - p, 0
  {
    hide Has, ReadString, ReadItems, ReadMembers, ReadNumber, ShowItems, ShowMembers, ShowPieces, ValidItems,
      ValidMembers, ValidNumeral, ValidPiece, Bytes, EraseItems, EraseMembers, ShowNumeral, NumeralValue;
    match Peek(t, p) {
      case '{' =>
        var ms, trailing, tail := MembersRead(t, p + 1, 0);
        d := ObjectDoc(ms, trailing, tail);
        Brackets(t, p, "{", ShowMembers(ms, trailing), tail, "}");
      case '[' =>
        var items, trailing, tail := ItemsRead(t, p + 1, 0);
        d := ArrayDoc(items, trailing, tail);
        Brackets(t, p, "[", ShowItems(items, trailing), tail, "]");
      case '"' =>
        var ps := StringRead(t, p + 1, 0);
        d := StringDoc(ps);
        Quotes(t, p, ShowPieces(ps));
      case 't' => d := BoolDoc(true); WordRead(t, p, "true");
      case 'f' => d := BoolDoc(false); WordRead(t, p, "false");
      case 'n' => d := NullDoc; WordRead(t, p, "null");
      case _ =>
        var n := NumberRead(t, p);
        d := NumberDoc(n);
    }
  }

  lemma WordRead(t: string, p: nat, word: string)
    requires HasWord(t, p, word)
    ensures Has(t, p, word)
  {
  }

  lemma OneChar(t: string, p: nat, s: string)
    requires |s| == 1 && p < |t| && t[p] == s[0]
    ensures Has(t, p, s)
  {
  }

  lemma Brackets(t: string, p: nat, open: string, inner: string, tail: string, close: string)
    requires |open| == 1 && p < |t| && t[p] == open[0] && Has(t, p + 1, inner + (tail + close))
    ensures Has(t, p, open + inner + tail + close)
  {
    OneChar(t, p, open);
    HasParts(t, p, open, inner + (tail + close));
    assert open + inner + tail + close == open + (inner + (tail + close));
  }

  lemma Quotes(t: string, p: nat, inner: string)
    requires p < |t| && t[p] == '"' && Has(t, p + 1, inner + "\"")
    ensures Has(t, p, "\"" + inner + "\"")
  {
    OneChar(t, p, "\"");
    HasParts(t, p, "\"", inner + "\"");
    assert "\"" + inner + "\"" == "\"" + (inner + "\"");
  }

  /** A leading blank, an item or member, and what comes after it, put together. */
  lemma FirstRead(t: string, p: nat, lead: string, v: string, trail: string, comma: string, later: string, end: string)
    requires Has(t, p, lead) && Has(t, p + |lead|, v)
    requires Has(t, p + |lead| + |v|, trail + (comma + (later + end)))
    ensures Has(t, p, lead + v + trail + comma + later + end)
  {
    hide Has;
    var after := trail + (comma + (later + end));
    HasParts(t, p + |lead|, v, after);
    HasParts(t, p, lead, v + after);
    Regroup(lead, v, trail, comma, later, end);
  }

  lemma NoItems(t: string, p: nat, tail: string, close: string)
    requires Has(t, p, tail) && Has(t, p + |tail|, close)
    ensures Has(t, p, "" + (tail + close))
  {
    HasParts(t, p, tail, close);
    assert "" + (tail + close) == tail + close;
  }

  lemma {:induction false} ItemsRead(t: string, p: nat, n: nat)
    returns (items: seq<ItemDoc>, trailing: bool, tail: string)
    requires p <= |t| && n <= UINT_LIMIT && ReadItems(t, p, false, n).Ok?
    ensures ValidItems(items) && IsBlank(tail) && n + |items| <= UINT_LIMIT && (trailing ==> items != [])
    ensures Has(t, p, ShowItems(items, trailing) + (tail + "]"))
    ensures ReadItems(t, p, false, n) == Ok(EraseItems(items), p + |ShowItems(items, trailing)| + |tail| + 1)
    decreases |t| - p, 1
  {
    hide Has, ReadValue, Show, Valid, IsBlank, Erase;
    var q := SkipSpace(t, p);
    SkippedIsBlank(t, p);
    HasSlice(t, p, q);
    var lead := t[p..q];
    if Peek(t, q) == ']' {
      items, trailing, tail := [], false, lead;
      OneChar(t, q, "]");
      NoItems(t, p, tail, "]");
    } else {
      var v := ValueRead(t, q);
      var trail, rest, trailing', tail' := AfterItemRead(t, q + |Show(v)|, n + 1);
      items, trailing, tail := [ItemDoc(lead, v, trail)] + rest, trailing', tail';
      assert items[1..] == rest;
      FirstRead(t, p, lead, Show(v), trail, Comma(|items|, trailing), ShowItems(rest, trailing), tail + "]");
    }
  }

  lemma {:induction false} AfterItemRead(t: string, r: nat, n: nat)
    returns (trail: string, rest: seq<ItemDoc>, trailing: bool, tail: string)
    requires r <= |t| && n <= UINT_LIMIT && ReadItems(t, r, true, n).Ok?
    ensures IsBlank(trail) && ValidItems(rest) && IsBlank(tail) && n + |rest| <= UINT_LIMIT
    ensures Has(t, r, trail + (Comma(|rest| + 1, trailing) + (ShowItems(rest, trailing) + (tail + "]"))))
    ensures ReadItems(t, r, true, n)
         == Ok(EraseItems(rest),
               r + |trail| + |Comma(|rest| + 1, trailing)| + |ShowItems(rest, trailing)| + |tail| + 1)
    decreases |t| - r, 2
  {
    hide Has, ReadValue, Show, Valid, Erase;
    var q := SkipSpace(t, r);
    SkippedIsBlank(t, r);
    HasSlice(t, r, q);
    trail := t[r..q];
    if Peek(t, q) == ']' {
      rest, trailing, tail := [], false, "";
      OneChar(t, q, "]");
      HasParts(t, r, trail, "]");
      assert trail + ("" + ("" + ("" + "]"))) == trail + "]";
    } else {
      rest, trailing, tail := ItemsRead(t, q + 1, n);
      trailing := trailing || rest == [];
      OneChar(t, q, ",");
      var later := ShowItems(rest, trailing) + (tail + "]");
      HasParts(t, q, ",", later);
      HasParts(t, r, trail, "," + later);
    }
  }

  lemma {:induction false} MembersRead(t: string, p: nat, n: nat)
    returns (ms: seq<MemberDoc>, trailing: bool, tail: string)
    requires p <= |t| && n <= UINT_LIMIT && ReadMembers(t, p, false, n).Ok?
    ensures ValidMembers(ms) && IsBlank(tail) && n + |ms| <= UINT_LIMIT && (trailing ==> ms != [])
    ensures Has(t, p, ShowMembers(ms, trailing) + (tail + "}"))
    ensures ReadMembers(t, p, false, n) == Ok(EraseMembers(ms), p + |ShowMembers(ms, trailing)| + |tail| + 1)
    decreases |t| - p, 1
  {
    hide Has, ReadMember, ShowMember, Valid, IsBlank, Erase, ValidPieces, Bytes;
    var q := SkipSpace(t, p);
    SkippedIsBlank(t, p);
    HasSlice(t, p, q);
    var lead := t[p..q];
    if Peek(t, q) == '}' {
      ms, trailing, tail := [], false, lead;
      OneChar(t, q, "}");
      NoItems(t, p, tail, "}");
    } else {
      var m := MemberRead(t, q);
      var kv := ShowMember(m);
      var trail, rest, trailing', tail' := AfterMemberRead(t, q + |kv|, n + 1);
      var first := m.(lead := lead, trail := trail);
      ms, trailing, tail := [first] + rest, trailing', tail';
      assert ms[1..] == rest;
      assert ShowMember(first) == kv by { SameMember(m, lead, trail); }
      FirstRead(t, p, lead, kv, trail, Comma(|ms|, trailing), ShowMembers(rest, trailing), tail + "}");
    }
  }

  lemma SameMember(m: MemberDoc, lead: string, trail: string)
    ensures ShowMember(m.(lead := lead, trail := trail)) == ShowMember(m)
  {
  }

  lemma KeyRead(t: string, q: nat, key: string, before: string, after: string, v: string)
    requires q < |t| && t[q] == '"' && Has(t, q + 1, key) && Has(t, q + 1 + |key|, before)
    requires var a := q + 1 + |key| + |before|;
             a < |t| && t[a] == ':' && Has(t, a + 1, after) && Has(t, a + 1 + |after|, v)
    ensures Has(t, q, "\"" + key + before + ":" + after + v)
  {
    hide Has;
    var c := q + 1 + |key|;
    var a := c + |before|;
    OneChar(t, q, "\"");
    OneChar(t, a, ":");
    HasParts(t, a + 1, after, v);
    HasParts(t, a, ":", after + v);
    HasParts(t, c, before, ":" + (after + v));
    HasParts(t, q + 1, key, before + (":" + (after + v)));
    HasParts(t, q, "\"", key + (before + (":" + (after + v))));
    Regroup("\"", key, before, ":", after, v);
  }

  lemma {:induction false} MemberRead(t: string, q: nat) returns (m: MemberDoc)
    requires q <= |t| && Peek(t, q) == '"' && ReadMember(t, q).Ok?
    ensures ValidPieces(m.key) && IsBlank(m.beforeColon) && IsBlank(m.afterColon) && Valid(m.value)
    ensures Has(t, q, ShowMember(m))
    ensures ReadMember(t, q) == Ok(Member(Bytes(m.key), Erase(m.value)), q + |ShowMember(m)|)
    decreases |t| - q, 0
  {
    hide Has, ReadValue, ReadString, Show, Valid, IsBlank, Erase, ShowPieces, ValidPiece, Bytes;
    var key := StringRead(t, q + 1, 0);
    var c := q + |ShowPieces(key)| + 2;
    var a := SkipSpace(t, c);
    SkippedIsBlank(t, c);
    HasSlice(t, c, a);
    var b := SkipSpace(t, a + 1);
    SkippedIsBlank(t, a + 1);
    HasSlice(t, a + 1, b);
    var v := ValueRead(t, b);
    m := MemberDoc("", key, t[c..a], t[a + 1..b], v, "");
    KeyRead(t, q, ShowPieces(key) + "\"", t[c..a], t[a + 1..b], Show(v));
  }

  lemma {:induction false} AfterMemberRead(t: string, r: nat, n: nat)
    returns (trail: string, rest: seq<MemberDoc>, trailing: bool, tail: string)
    requires r <= |t| && n <= UINT_LIMIT && ReadMembers(t, r, true, n).Ok?
    ensures IsBlank(trail) && ValidMembers(rest) && IsBlank(tail) && n + |rest| <= UINT_LIMIT
    ensures Has(t, r, trail + (Comma(|rest| + 1, trailing) + (ShowMembers(rest, trailing) + (tail + "}"))))
    ensures ReadMembers(t, r, true, n)
         == Ok(EraseMembers(rest),
               r + |trail| + |Comma(|rest| + 1, trailing)| + |ShowMembers(rest, trailing)| + |tail| + 1)
    decreases |t| - r, 2
  {
    hide Has, ReadMember, ShowMember, Valid, Erase, Bytes;
    var q := SkipSpace(t, r);
    SkippedIsBlank(t, r);
    HasSlice(t, r, q);
    trail := t[r..q];
    if Peek(t, q) == '}' {
      rest, trailing, tail := [], false, "";
      OneChar(t, q, "}");
      HasParts(t, r, trail, "}");
      assert trail + ("" + ("" + ("" + "}"))) == trail + "}";
    } else {
      rest, trailing, tail := MembersRead(t, q + 1, n);
      trailing := trailing || rest == [];
      OneChar(t, q, ",");
      var later := ShowMembers(rest, trailing) + (tail + "}");
      HasParts(t, q, ",", later);
      HasParts(t, r, trail, "," + later);
    }
  }

  // ---------------------------------------------------------------- documents

  /** A document with the blanks around it; anything may follow a zero byte. */
  datatype Source = Source(lead: string, doc: Doc, trail: string, rest: string)

  predicate ValidSource(s: Source) {
    IsBlank(s.lead) && Valid(s.doc) && IsBlank(s.trail) && (s.rest != "" ==> s.rest[0] == '\0')
  }

  function ShowSource(s: Source): string {
    s.lead + (Show(s.doc) + (s.trail + s.rest))
  }

  /** Every showing of a document is read as the document's value. */
  lemma SourceAccepted(s: Source)
    requires ValidSource(s)
    ensures ReadDocument(ShowSource(s)) == Ok(Erase(s.doc), |s.lead| + |Show(s.doc)|)
  {
    hide Has, Show, Valid, Erase, ReadValue, IsBlank, SkipSpace;
    var t := ShowSource(s);
    var after := s.trail + s.rest;
    assert Has(t, 0, t) by { WholeText(t); }
    HasParts(t, 0, s.lead, Show(s.doc) + after);
    var p := |s.lead|;
    HasParts(t, p, Show(s.doc), after);
    var q := p + |Show(s.doc)|;
    HasParts(t, q, s.trail, s.rest);
    ShowStarts(s.doc);
    HasAt(t, p, Show(s.doc), 0);
    SkipsBlank(t, 0, s.lead);
    if s.rest != "" { HasAt(t, q + |s.trail|, s.rest, 0); }
    SkipsBlank(t, q, s.trail);
    NotGreedyAfter(t, q, s.trail);
    ValueShown(t, p, s.doc);
  }

  lemma WholeText(t: string)
    ensures Has(t, 0, t)
  {
  }

  lemma NotGreedyAfter(t: string, q: nat, trail: string)
    requires q <= |t| && IsBlank(trail) && Has(t, q, trail) && Peek(t, q + |trail|) == '\0'
    ensures !IsGreedy(Peek(t, q))
  {
    if trail != "" {
      HasAt(t, q, trail, 0);
      assert trail[0] in trail;
    }
  }

  lemma FourParts(t: string, p: nat, q: nat, r: nat)
    requires p <= q <= r <= |t|
    ensures t == t[0..p] + (t[p..q] + (t[q..r] + t[r..]))
  {
  }

  /** Every text that is read is the showing of a document. */
  lemma AcceptedSource(t: string) returns (s: Source)
    requires ReadDocument(t).Ok?
    ensures ValidSource(s) && ShowSource(s) == t && ReadDocument(t).value == Erase(s.doc)
  {
    hide Show, Valid, Erase, ReadValue, IsBlank, SkipSpace;
    var p := SkipSpace(t, 0);
    SkippedIsBlank(t, 0);
    var d := ValueRead(t, p);
    var q := p + |Show(d)|;
    var r := SkipSpace(t, q);
    SkippedIsBlank(t, q);
    s := Source(t[0..p], d, t[q..r], t[r..]);
    FourParts(t, p, q, r);
  }

  lemma UnmarkedLanguage(t: string, junk: char)
    ensures TwoPasses(t, junk).Accepted? <==> exists s :: ValidSource(s) && ShowSource(s) == t
    ensures forall s :: ValidSource(s) && ShowSource(s) == t ==>
                          TwoPasses(t, junk) == Accepted(At(0), Laid(Erase(s.doc), Null, 0))
  {
    hide TwoPasses, ReadDocument, ValidSource, ShowSource, Laid, Erase;
    JsonTheorems.TwoPassesCorrect(t, junk);
    if ReadDocument(t).Ok? {
      var s := AcceptedSource(t);
    }
    forall s | ValidSource(s) && ShowSource(s) == t
      ensures TwoPasses(t, junk) == Accepted(At(0), Laid(Erase(s.doc), Null, 0))
    {
      SourceAccepted(s);
    }
  }

  lemma MarkIsNoDocument(t: string)
    requires BYTE_ORDER_MARK <= t
    ensures ReadDocument(t).Err?
  {
    assert t[0] == BYTE_ORDER_MARK[0];
    assert SkipSpace(t, 0) == 0;
    hide ReadItems, ReadMembers, ReadString, ReadNumber;
  }

  /** A document, with or without a byte order mark before it. */
  predicate Shows(t: string, s: Source) {
    ValidSource(s) && (t == ShowSource(s) || t == BYTE_ORDER_MARK + ShowSource(s))
  }

  lemma ShownText(t: string, s: Source)
    ensures Shows(t, s) <==> ValidSource(s) && ShowSource(s) == SkipMark(t)
  {
    var shown := ShowSource(s);
    assert BYTE_ORDER_MARK <= BYTE_ORDER_MARK + shown;
    hide ShowSource, ReadDocument;
    if BYTE_ORDER_MARK <= t {
      assert t == BYTE_ORDER_MARK + t[3..];
      if ValidSource(s) && t == shown {
        hide ValidSource;
        SourceAccepted(s);
        MarkIsNoDocument(t);
        assert false;
      }
    }
  }

  /** The parser accepts exactly the showings of documents, and returns the nodes of the document's value:
      what `json_parse` promises, with the additions to RFC 8259 spelled out by `Valid`. */
  lemma AcceptedLanguage(t: string, junk: char)
    ensures ParseEx(t, junk).Accepted? <==> exists s :: Shows(t, s)
    ensures forall s :: Shows(t, s) ==> ParseEx(t, junk) == Accepted(At(0), Laid(Erase(s.doc), Null, 0))
  {
    hide TwoPasses, ValidSource, ShowSource, Laid, Erase, SkipMark, Shows;
    UnmarkedLanguage(SkipMark(t), junk);
    forall s ensures Shows(t, s) <==> ValidSource(s) && ShowSource(s) == SkipMark(t) { ShownText(t, s); }
  }
}
