/** What can be written without escaping: a document printed with its strings as they are is read back as its own
    value exactly when it is a document, that is, when every string can stand between quotes unchanged. */
module WriterLimits {
  import opened JsonText
  import opened JsonGrammar
  import opened JsonSyntax
  import opened Description

  // ---------------------------------------------------------------- strings

  /** A quote among the first `k` bytes. */
  predicate Early(s: string, k: nat) {
    exists j :: 0 <= j < k && j < |s| && s[j] == '"'
  }

  lemma EscapeShrinks(t: string, p: nat, k: nat)
    requires p + k < |t| && t[p + k] == '"' && (forall i :: p <= i < p + k ==> t[i] != '"') && k > 0
    requires t[p] == '\\' && ReadEscape(t, p + 1).Ok?
    ensures var r := ReadEscape(t, p + 1);
            0 < |r.value| < r.next - p && (r.next <= p + k || (k == 1 && r.value == "\""))
  {
    if t[p + 1] == 'u' {
      var r := UnicodeEscape(t, p + 1);
      HexCovers(t, p + 2, p + k);
      if r.next == p + 12 { HexCovers(t, p + 8, p + k); }
      assert |Utf8(r.value)| <= 4 && (r.next == p + 6 ==> |Utf8(r.value)| <= 3);
    }
  }

  lemma HexCovers(t: string, p: nat, q: nat)
    requires Hex4(t, p) && q < |t| && t[q] == '"'
    ensures q < p || q >= p + 4
  {
    assert Peek(t, q) == '"' && HexValue('"') == 0xFF;
  }

  /** Reading a string past an escape yields fewer bytes than there are before the first quote, or an earlier quote. */
  lemma {:induction false} FirstQuote(t: string, p: nat, n: nat, k: nat)
    requires p + k < |t| && t[p + k] == '"' && (forall i :: p <= i < p + k ==> t[i] != '"')
    requires ReadString(t, p, n).Ok?
    ensures var s := ReadString(t, p, n).value;
            (|s| <= k || Early(s, k)) && (k > 0 && t[p] == '\\' ==> |s| < k || Early(s, k))
    decreases k
  {
    hide ReadEscape;
    if k == 0 {
    } else {
      var c := ReadChar(t, p);
      var b, q := c.value, c.next;
      if t[p] == '\\' { EscapeShrinks(t, p, k); }
      var s := ReadString(t, p, n).value;
      if q <= p + k {
        var rest := ReadString(t, q, n + |b|).value;
        assert s == b + rest;
        FirstQuote(t, q, n + |b|, p + k - q);
        if Early(rest, p + k - q) {
          var j :| 0 <= j < p + k - q && j < |rest| && rest[j] == '"';
          assert s[|b| + j] == '"';
        }
      } else {
        assert s[0] == '"';
      }
    }
  }

  function QuoteIn(s: string): (k: nat)
    ensures k <= |s| && (forall i :: 0 <= i < k ==> s[i] != '"') && (k < |s| ==> s[k] == '"')
  {
    if s == "" || s[0] == '"' then 0 else 1 + QuoteIn(s[1..])
  }

  lemma BackslashSpoils(t: string, p: nat, n: nat, s: string)
    requires p <= |t| && Has(t, p, s + "\"") && s != "" && s[0] == '\\'
    ensures !(ReadString(t, p, n).Ok? && ReadString(t, p, n).value == s)
  {
    var k := QuoteIn(s);
    assert s[0] != '"' && k > 0;
    forall i | 0 <= i <= |s| ensures t[p + i] == (s + "\"")[i] { HasAt(t, p, s + "\"", i); }
    assert t[p + k] == '"';
    assert forall i :: p <= i < p + k ==> t[i] == s[i - p];
    hide ReadString, Has;
    if ReadString(t, p, n).Ok? { FirstQuote(t, p, n, k); }
  }

  /** Reading on after a character that is no backslash. */
  lemma PlainHead(t: string, p: nat, n: nat)
    requires p < |t| && t[p] != '\\' && t[p] != '"' && ReadString(t, p, n).Ok?
    ensures CleanChar(t[p]) && n <= UINT_LIMIT && ReadString(t, p + 1, n + 1).Ok?
    ensures ReadString(t, p, n).value == [t[p]] + ReadString(t, p + 1, n + 1).value
    ensures ReadString(t, p, n).next == ReadString(t, p + 1, n + 1).next
  {
    hide ReadEscape;
  }

  lemma NothingHead(t: string, p: nat, n: nat)
    requires p < |t| && t[p] == '"' && ReadString(t, p, n).Ok?
    ensures n <= UINT_LIMIT && ReadString(t, p, n).value == "" && ReadString(t, p, n).next == p + 1
  {
    hide ReadEscape;
  }

  lemma HeadShown(t: string, p: nat, s: string)
    requires s != "" && Has(t, p, s + "\"")
    ensures p + |s| < |t| && t[p] == s[0] && Has(t, p + 1, s[1..] + "\"")
  {
    HasAt(t, p, s + "\"", 0);
    assert s + "\"" == [s[0]] + (s[1..] + "\"");
    HasParts(t, p, [s[0]], s[1..] + "\"");
  }

  /** A string printed as it is and read back unchanged is clean, and its end is where it was printed. */
  lemma {:induction false} StringForced(t: string, p: nat, n: nat, s: string)
    requires p <= |t| && Has(t, p, s + "\"") && ReadString(t, p, n).Ok? && ReadString(t, p, n).value == s
    ensures (forall i :: 0 <= i < |s| ==> CleanChar(s[i])) && n + |s| <= UINT_LIMIT
    ensures ReadString(t, p, n).next == p + |s| + 1
    decreases |s|
  {
    if s == "" {
      assert t[p] == '"';
      NothingHead(t, p, n);
    } else {
      HeadShown(t, p, s);
      hide ReadString, Has, CleanChar;
      if s[0] == '\\' {
        BackslashSpoils(t, p, n, s);
        assert false;
      } else {
        QuoteEnds(t, p, n);
        PlainHead(t, p, n);
        assert s[1..] == ReadString(t, p + 1, n + 1).value;
        StringForced(t, p + 1, n + 1, s[1..]);
      }
    }
  }

  lemma QuoteEnds(t: string, p: nat, n: nat)
    requires p < |t| && ReadString(t, p, n).Ok? && ReadString(t, p, n).value != ""
    ensures t[p] != '"'
  {
    hide ReadEscape;
  }

  // ---------------------------------------------------------------- documents with their strings as they are

  predicate AllRaw(ps: seq<Piece>) {
    ps == Raws(Bytes(ps))
  }

  predicate Spotless(s: string) {
    forall i :: 0 <= i < |s| ==> CleanChar(s[i])
  }

  predicate LooseString(ps: seq<Piece>, clean: bool) {
    AllRaw(ps) && (clean ==> Spotless(Bytes(ps)))
  }

  /** A document but for how long things are and, unless it is `clean`, for what its strings contain. */
  predicate Loose(d: Doc, clean: bool)
    decreases d, 0
  {
    match d
    case NumberDoc(n) => ValidNumeral(n)
    case StringDoc(ps) => LooseString(ps, clean)
    case ArrayDoc(items, trailing, tail) => IsBlank(tail) && !trailing && LooseItems(items, clean)
    case ObjectDoc(members, trailing, tail) => IsBlank(tail) && !trailing && LooseMembers(members, clean)
    case _ => true
  }

  predicate LooseItems(items: seq<ItemDoc>, clean: bool)
    decreases items, 0
  {
    items != [] ==>
      IsBlank(items[0].lead) && Loose(items[0].value, clean) && IsBlank(items[0].trail) && LooseItems(items[1..], clean)
  }

  predicate LooseMembers(ms: seq<MemberDoc>, clean: bool)
    decreases ms, 0
  {
    ms != [] ==>
      var m := ms[0];
      && IsBlank(m.lead) && LooseString(m.key, clean) && IsBlank(m.beforeColon) && IsBlank(m.afterColon)
      && Loose(m.value, clean) && IsBlank(m.trail) && LooseMembers(ms[1..], clean)
  }

  lemma LooseStarts(d: Doc, clean: bool)
    requires Loose(d, clean)
    ensures Show(d) != "" && var c := Show(d)[0]; !IsSpace(c) && c != ']' && c != ',' && c != '}'
  {
    match d {
      case NumberDoc(n) =>
        if !n.negative { assert n.digits != "" && IsDigit(n.digits[0]); }
      case _ =>
    }
  }

  /** A clean string is read back, if it can be read at all. */
  lemma {:induction false} SpotlessRead(t: string, p: nat, n: nat, s: string)
    requires p <= |t| && Has(t, p, s + "\"") && Spotless(s) && ReadString(t, p, n).Ok?
    ensures ReadString(t, p, n).value == s
    decreases |s|
  {
    if s == "" {
      assert t[p] == '"';
      NothingHead(t, p, n);
    } else {
      HeadShown(t, p, s);
      hide ReadString, Has;
      PlainHead(t, p, n);
      SpotlessRead(t, p + 1, n + 1, s[1..]);
      assert s == [s[0]] + s[1..];
    }
  }

  lemma KeyForced(t: string, p: nat, ps: seq<Piece>, clean: bool)
    requires p <= |t| && LooseString(ps, clean) && Has(t, p, ShowPieces(ps) + "\"")
    requires ReadString(t, p, 0).Ok? && (clean || ReadString(t, p, 0).value == Bytes(ps))
    ensures ValidPieces(ps) && ReadString(t, p, 0).next == p + |ShowPieces(ps)| + 1
  {
    hide ReadString, Has, ValidPieces;
    var s := Bytes(ps);
    RawsShown(s);
    if clean { SpotlessRead(t, p, 0, s); }
    StringForced(t, p, 0, s);
    assert Clean(s) by {
      forall c | c in s ensures CleanChar(c) { var i :| 0 <= i < |s| && s[i] == c; }
    }
  }

  /** After a value comes a blank, a comma or a closing bracket. */
  lemma EndsHere(t: string, r: nat, trail: string, n: nat, later: string, tail: string, close: string)
    requires r <= |t| && IsBlank(trail) && IsBlank(tail) && (close == "]" || close == "}")
    requires Has(t, r, trail + (Comma(n, false) + (later + (tail + close)))) && (n <= 1 ==> later == "")
    ensures !IsGreedy(Peek(t, r))
  {
    hide IsBlank;
    var s := trail + (Comma(n, false) + (later + (tail + close)));
    HasAt(t, r, s, 0);
    if trail != "" {
      assert IsSpace(s[0]) by { BlankAt(trail); }
    } else if n > 1 {
      assert s[0] == ',';
    } else if tail != "" {
      assert IsSpace(s[0]) by { BlankAt(tail); }
    } else {
      assert s[0] == close[0];
    }
  }

  lemma BlankAt(s: string)
    requires IsBlank(s) && s != ""
    ensures IsSpace(s[0])
  {
    assert s[0] in s;
  }

  /** A document with its strings as they are that is read back as its own value is valid; so is one whose strings
      are clean, whatever it is read as. */
  lemma {:induction false} ValueForced(t: string, p: nat, d: Doc, clean: bool)
    requires p <= |t| && Loose(d, clean) && Has(t, p, Show(d))
    requires ReadValue(t, p).Ok? && (clean || ReadValue(t, p).value == Erase(d))
    ensures Valid(d)
    decreases d, 1
  {
    hide Has, ShowItems, ShowMembers, ShowPieces, ReadString, ReadItems, ReadMembers, ReadNumber, HasWord, ValidItems,
      ValidMembers, ValidNumeral, ShowNumeral, NumeralValue, LooseItems, LooseMembers, LooseString, Bytes,
      ValidPieces, IsBlank;
    match d {
      case StringDoc(ps) =>
        Quoted(t, p, ShowPieces(ps));
        KeyForced(t, p + 1, ps, clean);
      case ArrayDoc(items, trailing, tail) =>
        Bracketed(t, p, "[", ShowItems(items, trailing), tail, "]");
        ItemsForced(t, p + 1, 0, items, tail, clean);
      case ObjectDoc(members, trailing, tail) =>
        Bracketed(t, p, "{", ShowMembers(members, trailing), tail, "}");
        MembersForced(t, p + 1, 0, members, tail, clean);
      case _ =>
    }
  }

  lemma {:induction false} ItemsForced(t: string, p: nat, n: nat, items: seq<ItemDoc>, tail: string, clean: bool)
    requires p <= |t| && LooseItems(items, clean) && IsBlank(tail) && n <= UINT_LIMIT
    requires Has(t, p, ShowItems(items, false) + (tail + "]"))
    requires ReadItems(t, p, false, n).Ok? && (clean || ReadItems(t, p, false, n).value == EraseItems(items))
    ensures ValidItems(items) && n + |items| <= UINT_LIMIT
    decreases items, 0
  {
    hide Has, Show, ReadValue, IsBlank, Comma, SkipSpace, Loose, Valid;
    if items != [] {
      var i, rest := items[0], items[1..];
      var v, comma, later := Show(i.value), Comma(|items|, false), ShowItems(rest, false);
      LooseStarts(i.value, clean);
      FirstPart(t, p, i.lead, v, i.trail, comma, later, tail + "]");
      var q := p + |i.lead|;
      NoItemsLeft(rest);
      EndsHere(t, q + |v|, i.trail, |items|, later, tail, "]");
      var x := ReadValue(t, q);
      ConsEqual(x.value, ReadItems(t, x.next, true, n + 1).value, Erase(i.value), EraseItems(rest));
      ValueForced(t, q, i.value, clean);
      ValueShown(t, q, i.value);
      AfterItemForced(t, q + |v|, n + 1, i.trail, rest, tail, clean);
    }
  }

  lemma ConsEqual<T>(a: T, x: seq<T>, b: T, y: seq<T>)
    ensures [a] + x == [b] + y ==> a == b && x == y
  {
    if [a] + x == [b] + y {
      assert ([a] + x)[0] == ([b] + y)[0] && ([a] + x)[1..] == x && ([b] + y)[1..] == y;
    }
  }

  lemma NoItemsLeft(items: seq<ItemDoc>)
    ensures |items| == 0 ==> ShowItems(items, false) == ""
  {
  }

  lemma NoMembersLeft(ms: seq<MemberDoc>)
    ensures |ms| == 0 ==> ShowMembers(ms, false) == ""
  {
  }

  lemma {:induction false} AfterItemForced(t: string, r: nat, n: nat, trail: string, rest: seq<ItemDoc>, tail: string,
                                          clean: bool)
    requires r <= |t| && IsBlank(trail) && LooseItems(rest, clean) && IsBlank(tail) && n <= UINT_LIMIT
    requires Has(t, r, trail + (Comma(|rest| + 1, false) + (ShowItems(rest, false) + (tail + "]"))))
    requires ReadItems(t, r, true, n).Ok? && (clean || ReadItems(t, r, true, n).value == EraseItems(rest))
    ensures ValidItems(rest) && n + |rest| <= UINT_LIMIT
    decreases rest, 1
  {
    hide Has, Show, ReadValue, IsBlank, SkipSpace, LooseItems, EraseItems;
    if rest != [] {
      var later := ShowItems(rest, false) + (tail + "]");
      BlankThen(t, r, trail, "," + later);
      HasParts(t, r + |trail|, ",", later);
      hide ValidItems, ShowItems;
      ItemsForced(t, r + |trail| + 1, n, rest, tail, clean);
    }
  }

  lemma {:induction false} MembersForced(t: string, p: nat, n: nat, ms: seq<MemberDoc>, tail: string, clean: bool)
    requires p <= |t| && LooseMembers(ms, clean) && IsBlank(tail) && n <= UINT_LIMIT
    requires Has(t, p, ShowMembers(ms, false) + (tail + "}"))
    requires ReadMembers(t, p, false, n).Ok? && (clean || ReadMembers(t, p, false, n).value == EraseMembers(ms))
    ensures ValidMembers(ms) && n + |ms| <= UINT_LIMIT
    decreases ms, 0
  {
    hide Has, ShowMember, ReadMember, IsBlank, Comma, SkipSpace, ValidPieces, Valid, Loose, LooseString;
    if ms != [] {
      var m, rest := ms[0], ms[1..];
      var kv, comma, later := ShowMember(m), Comma(|ms|, false), ShowMembers(rest, false);
      MemberStarts(m);
      FirstPart(t, p, m.lead, kv, m.trail, comma, later, tail + "}");
      var q := p + |m.lead|;
      NoMembersLeft(rest);
      EndsHere(t, q + |kv|, m.trail, |ms|, later, tail, "}");
      var x := ReadMember(t, q);
      var erased := Member(Bytes(m.key), Erase(m.value));
      ConsEqual(x.value, ReadMembers(t, x.next, true, n + 1).value, erased, EraseMembers(rest));
      MemberForced(t, q, m, clean);
      MemberShown(t, q, m);
      AfterMemberForced(t, q + |kv|, n + 1, m.trail, rest, tail, clean);
    }
  }

  lemma {:induction false} MemberForced(t: string, q: nat, m: MemberDoc, clean: bool)
    requires q <= |t| && Has(t, q, ShowMember(m)) && Peek(t, q) == '"'
    requires LooseString(m.key, clean) && IsBlank(m.beforeColon) && IsBlank(m.afterColon) && Loose(m.value, clean)
    requires ReadMember(t, q).Ok? && (clean || ReadMember(t, q).value == Member(Bytes(m.key), Erase(m.value)))
    ensures ValidPieces(m.key) && Valid(m.value)
    decreases m, 2
  {
    hide Has, Show, ShowPieces, ReadString, ReadValue, IsBlank, SkipSpace, Valid, Bytes, ValidPieces, Loose;
    hide LooseString;
    LooseStarts(m.value, clean);
    KeyParts(t, q, ShowPieces(m.key) + "\"", m.beforeColon, m.afterColon, Show(m.value));
    KeyForced(t, q + 1, m.key, clean);
    ColonParts(t, q + |ShowPieces(m.key)| + 2, m.beforeColon, m.afterColon, Show(m.value));
    var a := q + |ShowPieces(m.key)| + 2 + |m.beforeColon|;
    ValueForced(t, a + 1 + |m.afterColon|, m.value, clean);
  }

  lemma {:induction false} AfterMemberForced(t: string, r: nat, n: nat, trail: string, rest: seq<MemberDoc>,
                                            tail: string, clean: bool)
    requires r <= |t| && IsBlank(trail) && LooseMembers(rest, clean) && IsBlank(tail) && n <= UINT_LIMIT
    requires Has(t, r, trail + (Comma(|rest| + 1, false) + (ShowMembers(rest, false) + (tail + "}"))))
    requires ReadMembers(t, r, true, n).Ok? && (clean || ReadMembers(t, r, true, n).value == EraseMembers(rest))
    ensures ValidMembers(rest) && n + |rest| <= UINT_LIMIT
    decreases rest, 1
  {
    hide Has, Show, ReadMember, IsBlank, SkipSpace, LooseMembers, EraseMembers;
    if rest != [] {
      var later := ShowMembers(rest, false) + (tail + "}");
      BlankThen(t, r, trail, "," + later);
      HasParts(t, r + |trail|, ",", later);
      hide ValidMembers, ShowMembers;
      MembersForced(t, r + |trail| + 1, n, rest, tail, clean);
    }
  }
}
