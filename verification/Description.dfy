/** The description file: the JSON document that `ATP_gen_descfile` (src/common/atpcommon.c) writes for a registry,
    and the value it stands for. */
module Description {
  import opened JsonText
  import opened JsonGrammar
  import opened JsonSyntax
  import opened Decimals
  import opened Options
  import opened RegistryModel

  // ---------------------------------------------------------------- numbers and strings as `printf` writes them

  function NumeralOf(n: int): Numeral {
    Numeral(n < 0, Digits(if n < 0 then -n else n), None, None)
  }

  /** `%d` */
  function Decimal(n: int): string {
    ShowNumeral(NumeralOf(n))
  }

  lemma {:induction false} DigitsRead(n: nat)
    ensures IsDigits(Digits(n)) && DecimalValue(Digits(n)) == n
    ensures Digits(n) != "" && (n > 0 ==> Digits(n)[0] != '0') && (n == 0 ==> Digits(n) == "0")
  {
    var last := n % 10;
    assert IsDigit('0' + last as char) && DigitValue('0' + last as char) == last;
    var s := Digits(n);
    if n < 10 {
      assert s[..0] == "";
    } else {
      DigitsRead(n / 10);
      assert s[..|s| - 1] == Digits(n / 10);
    }
  }

  lemma DecimalRead(n: Int32)
    ensures ValidNumeral(NumeralOf(n)) && NumeralValue(NumeralOf(n)) == JInt(n)
  {
    var m: int := n;
    DigitsRead(if m < 0 then -m else m);
    hide DecimalValue, Digits;
  }

  /** A minus stands in front of negative numbers only. */
  lemma SignShown(n: Int32)
    ensures Decimal(n) != "" && (Decimal(n)[0] == '-' <==> n < 0) && (n == 0 ==> Decimal(n) == "0")
  {
    var m: int := n;
    DigitsRead(if m < 0 then -m else m);
    var d := Digits(if m < 0 then -m else m);
    assert d[0] in d;
    hide Digits;
  }

  /** `%s` between quotes: nothing is escaped. */
  function Raws(s: string): (r: seq<Piece>)
    ensures |r| == |s|
  {
    if s == "" then [] else [Raw(s[0])] + Raws(s[1..])
  }

  predicate CleanChar(c: char) {
    c != '\0' && c != '"' && c != '\\'
  }

  /** What the parser reads back between the quotes without change. */
  predicate Clean(s: string) {
    |s| <= UINT_LIMIT && forall c <- s :: CleanChar(c)
  }

  lemma {:induction false} RawsShown(s: string)
    ensures ShowPieces(Raws(s)) == s && Bytes(Raws(s)) == s
    ensures ValidPieces(Raws(s)) <==> Clean(s)
  {
    RawsPieces(s);
    RawsValid(s);
  }

  lemma {:induction false} RawsPieces(s: string)
    ensures ShowPieces(Raws(s)) == s && Bytes(Raws(s)) == s
  {
    if s == "" {
    } else {
      RawsPieces(s[1..]);
      assert s == [s[0]] + s[1..];
    }
  }

  lemma {:induction false} RawsAt(s: string, i: nat)
    requires i < |s|
    ensures Raws(s)[i] == Raw(s[i])
  {
    if i == 0 {
    } else {
      RawsAt(s[1..], i - 1);
    }
  }

  lemma RawsValid(s: string)
    ensures (forall p <- Raws(s) :: ValidPiece(p)) <==> (forall c <- s :: CleanChar(c))
  {
    forall i | 0 <= i < |s| ensures Raws(s)[i] == Raw(s[i]) { RawsAt(s, i); }
    hide Raws;
    if forall p <- Raws(s) :: ValidPiece(p) {
      forall c | c in s ensures CleanChar(c) {
        var i :| 0 <= i < |s| && s[i] == c;
        assert ValidPiece(Raws(s)[i]);
      }
    }
    if forall c <- s :: CleanChar(c) {
      forall p | p in Raws(s) ensures ValidPiece(p) {
        var i :| 0 <= i < |s| && Raws(s)[i] == p;
        assert CleanChar(s[i]);
      }
    }
  }

  // ---------------------------------------------------------------- the document

  function ValuesOf(p: Param): seq<Int32> {
    if p.values.Some? then p.values.value else []
  }

  function NumberOf(n: int): Doc {
    NumberDoc(NumeralOf(n))
  }

  /** A member that starts after `lead`: nothing, or a new line. */
  function Keyed(lead: string, key: string, value: Doc): MemberDoc {
    MemberDoc(lead, Raws(key), "", "", value, "")
  }

  function IntItems(vs: seq<Int32>): (r: seq<ItemDoc>)
    ensures |r| == |vs|
  {
    if vs == [] then [] else [ItemDoc("", NumberOf(vs[0]), "")] + IntItems(vs[1..])
  }

  function ParamBody(p: Param): Doc {
    ObjectDoc([Keyed("", "range", ArrayDoc(IntItems(ValuesOf(p)), false, "")),
               Keyed("", "type", NumberOf(p.ptype)),
               Keyed("", "default", NumberOf(p.deflt))], false, "")
  }

  function ParamDocs(ps: seq<Param>): (r: seq<MemberDoc>)
    ensures |r| == |ps|
  {
    if ps == [] then [] else [Keyed("\n", ps[0].name, ParamBody(ps[0]))] + ParamDocs(ps[1..])
  }

  function ConstraintBody(c: Constraint): Doc {
    ObjectDoc([Keyed("", "expr", StringDoc(Raws(c.expr)))], false, "")
  }

  function ConstraintDocs(cs: seq<Constraint>): (r: seq<MemberDoc>)
    ensures |r| == |cs|
  {
    if cs == [] then [] else [Keyed("\n", cs[0].name, ConstraintBody(cs[0]))] + ConstraintDocs(cs[1..])
  }

  function ParamsDoc(ps: seq<Param>): Doc {
    ObjectDoc(ParamDocs(ps), false, if ps == [] then "\n\n" else "\n")
  }

  function ConstraintsDoc(cs: seq<Constraint>): Doc {
    ObjectDoc(ConstraintDocs(cs), false, if cs == [] then "\n" else "")
  }

  function DomainBody(d: Domain): Doc {
    ObjectDoc([Keyed("\n", "params", ParamsDoc(d.params)),
               Keyed("\n", "constraints", ConstraintsDoc(d.constraints)),
               Keyed("\n", "explorations", ArrayDoc([], false, "\n"))], false, "\n")
  }

  function DomainDocs(ds: seq<Domain>): (r: seq<MemberDoc>)
    ensures |r| == |ds|
  {
    if ds == [] then [] else [Keyed("\n", ds[0].name, DomainBody(ds[0]))] + DomainDocs(ds[1..])
  }

  function RegistryDoc(ds: seq<Domain>): Doc {
    ObjectDoc(DomainDocs(ds), false, "\n")
  }

  /** The text of the description file. */
  function DescText(ds: seq<Domain>): string {
    Show(RegistryDoc(ds)) + "\n"
  }

  // ---------------------------------------------------------------- the value

  function IntsJson(vs: seq<Int32>): (r: seq<Json>)
    ensures |r| == |vs|
  {
    if vs == [] then [] else [JInt(vs[0])] + IntsJson(vs[1..])
  }

  function ParamJson(p: Param): Json {
    JObject([Member("range", JArray(IntsJson(ValuesOf(p)))),
             Member("type", JInt(p.ptype)),
             Member("default", JInt(p.deflt))])
  }

  function ParamMembers(ps: seq<Param>): (r: seq<Member>)
    ensures |r| == |ps|
  {
    if ps == [] then [] else [Member(ps[0].name, ParamJson(ps[0]))] + ParamMembers(ps[1..])
  }

  function ConstraintJson(c: Constraint): Json {
    JObject([Member("expr", JString(c.expr))])
  }

  function ConstraintMembers(cs: seq<Constraint>): (r: seq<Member>)
    ensures |r| == |cs|
  {
    if cs == [] then [] else [Member(cs[0].name, ConstraintJson(cs[0]))] + ConstraintMembers(cs[1..])
  }

  function DomainJson(d: Domain): Json {
    JObject([Member("params", JObject(ParamMembers(d.params))),
             Member("constraints", JObject(ConstraintMembers(d.constraints))),
             Member("explorations", JArray([]))])
  }

  function DomainMembers(ds: seq<Domain>): (r: seq<Member>)
    ensures |r| == |ds|
  {
    if ds == [] then [] else [Member(ds[0].name, DomainJson(ds[0]))] + DomainMembers(ds[1..])
  }

  function RegistryJson(ds: seq<Domain>): Json {
    JObject(DomainMembers(ds))
  }

  // ---------------------------------------------------------------- the document stands for the value

  lemma {:induction false} IntsErased(vs: seq<Int32>)
    ensures EraseItems(IntItems(vs)) == IntsJson(vs) && ValidItems(IntItems(vs))
  {
    if vs == [] {
    } else {
      DecimalRead(vs[0]);
      hide ValidNumeral, NumeralValue, NumeralOf;
      IntsErased(vs[1..]);
    }
  }

  lemma NoMembers()
    ensures EraseMembers([]) == [] && ValidMembers([])
  {
  }

  function EraseMember(m: MemberDoc): Member {
    Member(Bytes(m.key), Erase(m.value))
  }

  predicate ValidMember(m: MemberDoc) {
    && IsBlank(m.lead) && ValidPieces(m.key) && IsBlank(m.beforeColon) && IsBlank(m.afterColon)
    && Valid(m.value) && IsBlank(m.trail)
  }

  lemma FirstErased(m: MemberDoc, rest: seq<MemberDoc>)
    ensures EraseMembers([m] + rest) == [EraseMember(m)] + EraseMembers(rest)
    ensures ValidMembers([m] + rest) <==> ValidMember(m) && ValidMembers(rest)
  {
    hide Bytes, Erase, Valid, ValidPieces, IsBlank;
    assert ([m] + rest)[1..] == rest;
  }

  lemma OneErased(a: MemberDoc)
    ensures EraseMembers([a]) == [EraseMember(a)] && (ValidMembers([a]) <==> ValidMember(a))
  {
    FirstErased(a, []);
    hide EraseMember, ValidMember;
    assert [a] + [] == [a];
  }

  lemma ThreeErased(a: MemberDoc, b: MemberDoc, c: MemberDoc)
    ensures EraseMembers([a, b, c]) == [EraseMember(a), EraseMember(b), EraseMember(c)]
    ensures ValidMembers([a, b, c]) <==> ValidMember(a) && ValidMember(b) && ValidMember(c)
  {
    hide EraseMember, ValidMember, EraseMembers, ValidMembers;
    OneErased(c);
    FirstErased(b, [c]);
    FirstErased(a, [b, c]);
    assert [b] + [c] == [b, c] && [a] + [b, c] == [a, b, c];
  }

  lemma KeyErased(lead: string, key: string, value: Doc)
    requires IsBlank(lead)
    ensures EraseMember(Keyed(lead, key, value)) == Member(key, Erase(value))
    ensures ValidMember(Keyed(lead, key, value)) <==> Clean(key) && Valid(value)
  {
    hide Bytes, Erase, Valid, ValidPieces, Raws, Clean;
    RawsShown(key);
  }

  /** An object of three members with the names the writer uses. */
  lemma ThreeKeys(lead: string, tail: string, ka: string, a: Doc, kb: string, b: Doc, kc: string, c: Doc)
    requires IsBlank(lead) && IsBlank(tail) && Clean(ka) && Clean(kb) && Clean(kc)
    ensures var d := ObjectDoc([Keyed(lead, ka, a), Keyed(lead, kb, b), Keyed(lead, kc, c)], false, tail);
            && Erase(d) == JObject([Member(ka, Erase(a)), Member(kb, Erase(b)), Member(kc, Erase(c))])
            && (Valid(d) <==> Valid(a) && Valid(b) && Valid(c))
  {
    hide Keyed, Clean, ValidMember, EraseMember, EraseMembers, ValidMembers, IsBlank;
    KeyErased(lead, ka, a);
    KeyErased(lead, kb, b);
    KeyErased(lead, kc, c);
    ThreeErased(Keyed(lead, ka, a), Keyed(lead, kb, b), Keyed(lead, kc, c));
  }

  lemma WriterKeys()
    ensures Clean("range") && Clean("type") && Clean("default") && Clean("expr")
    ensures Clean("params") && Clean("constraints") && Clean("explorations")
    ensures IsBlank("") && IsBlank("\n") && IsBlank("\n\n")
  {
  }

  lemma NumberErased(n: Int32)
    ensures Erase(NumberOf(n)) == JInt(n) && Valid(NumberOf(n))
  {
    DecimalRead(n);
    hide NumeralOf, NumeralValue, ValidNumeral;
  }

  lemma RangeErased(vs: seq<Int32>)
    ensures Erase(ArrayDoc(IntItems(vs), false, "")) == JArray(IntsJson(vs))
    ensures Valid(ArrayDoc(IntItems(vs), false, "")) <==> |vs| <= UINT_LIMIT
  {
    IntsErased(vs);
    hide IntItems, IntsJson, EraseItems, ValidItems;
  }

  lemma ParamErased(p: Param)
    ensures Erase(ParamBody(p)) == ParamJson(p)
    ensures Valid(ParamBody(p)) <==> |ValuesOf(p)| <= UINT_LIMIT
  {
    hide Keyed, Clean, Erase, Valid, NumberOf, IntItems, IntsJson, ValuesOf, IsBlank;
    WriterKeys();
    RangeErased(ValuesOf(p));
    NumberErased(p.ptype);
    NumberErased(p.deflt);
    ThreeKeys("", "", "range", ArrayDoc(IntItems(ValuesOf(p)), false, ""),
              "type", NumberOf(p.ptype), "default", NumberOf(p.deflt));
  }

  predicate CleanParam(p: Param) {
    Clean(p.name) && |ValuesOf(p)| <= UINT_LIMIT
  }

  predicate CleanConstraint(c: Constraint) {
    Clean(c.name) && Clean(c.expr)
  }

  predicate CleanParams(ps: seq<Param>) {
    ps != [] ==> CleanParam(ps[0]) && CleanParams(ps[1..])
  }

  predicate CleanConstraints(cs: seq<Constraint>) {
    cs != [] ==> CleanConstraint(cs[0]) && CleanConstraints(cs[1..])
  }

  predicate CleanDomain(d: Domain) {
    && Clean(d.name)
    && |d.params| <= UINT_LIMIT && CleanParams(d.params)
    && |d.constraints| <= UINT_LIMIT && CleanConstraints(d.constraints)
  }

  predicate CleanDomains(ds: seq<Domain>) {
    ds != [] ==> CleanDomain(ds[0]) && CleanDomains(ds[1..])
  }

  /** Every name and expression can stand between quotes as it is, and nothing is too long for an unsigned int. */
  predicate CleanRegistry(ds: seq<Domain>) {
    |ds| <= UINT_LIMIT && CleanDomains(ds)
  }

  lemma NextErased(lead: string, key: string, value: Doc, rest: seq<MemberDoc>)
    requires IsBlank(lead)
    ensures EraseMembers([Keyed(lead, key, value)] + rest) == [Member(key, Erase(value))] + EraseMembers(rest)
    ensures ValidMembers([Keyed(lead, key, value)] + rest) <==> Clean(key) && Valid(value) && ValidMembers(rest)
  {
    hide Keyed, EraseMember, ValidMember, EraseMembers, ValidMembers, Clean, Erase, Valid, IsBlank;
    KeyErased(lead, key, value);
    FirstErased(Keyed(lead, key, value), rest);
  }

  lemma {:induction false} ParamsErased(ps: seq<Param>)
    ensures EraseMembers(ParamDocs(ps)) == ParamMembers(ps)
    ensures ValidMembers(ParamDocs(ps)) <==> CleanParams(ps)
  {
    if ps == [] {
      NoMembers();
    } else {
      hide Keyed, ParamBody, ParamJson, EraseMembers, ValidMembers, Clean, Erase, Valid, IsBlank, ValuesOf;
      ParamsErased(ps[1..]);
      ParamErased(ps[0]);
      WriterKeys();
      NextErased("\n", ps[0].name, ParamBody(ps[0]), ParamDocs(ps[1..]));
    }
  }

  lemma ConstraintErased(c: Constraint)
    ensures Erase(ConstraintBody(c)) == ConstraintJson(c)
    ensures Valid(ConstraintBody(c)) <==> Clean(c.expr)
  {
    hide Keyed, Raws, Clean, EraseMember, ValidMember, EraseMembers, ValidMembers, IsBlank;
    var s := StringDoc(Raws(c.expr));
    assert Erase(s) == JString(c.expr) && (Valid(s) <==> Clean(c.expr)) by { RawsShown(c.expr); }
    WriterKeys();
    KeyErased("", "expr", s);
    OneErased(Keyed("", "expr", s));
  }

  lemma {:induction false} ConstraintsErased(cs: seq<Constraint>)
    ensures EraseMembers(ConstraintDocs(cs)) == ConstraintMembers(cs)
    ensures ValidMembers(ConstraintDocs(cs)) <==> CleanConstraints(cs)
  {
    if cs == [] {
      NoMembers();
    } else {
      hide Keyed, ConstraintBody, ConstraintJson, EraseMembers, ValidMembers, Clean, Erase, Valid, IsBlank;
      ConstraintsErased(cs[1..]);
      ConstraintErased(cs[0]);
      WriterKeys();
      NextErased("\n", cs[0].name, ConstraintBody(cs[0]), ConstraintDocs(cs[1..]));
    }
  }

  lemma SectionsErased(d: Domain)
    ensures var ps, cs := ParamsDoc(d.params), ConstraintsDoc(d.constraints);
            && Erase(ps) == JObject(ParamMembers(d.params)) && Erase(cs) == JObject(ConstraintMembers(d.constraints))
            && (Valid(ps) <==> |d.params| <= UINT_LIMIT && CleanParams(d.params))
            && (Valid(cs) <==> |d.constraints| <= UINT_LIMIT && CleanConstraints(d.constraints))
  {
    hide ParamDocs, ConstraintDocs, ParamMembers, ConstraintMembers, EraseMembers, ValidMembers, CleanParams;
    hide CleanConstraints, IsBlank;
    WriterKeys();
    ParamsErased(d.params);
    ConstraintsErased(d.constraints);
  }

  lemma NothingErased()
    ensures Erase(ArrayDoc([], false, "\n")) == JArray([]) && Valid(ArrayDoc([], false, "\n"))
  {
  }

  lemma DomainErased(d: Domain)
    ensures Erase(DomainBody(d)) == DomainJson(d)
    ensures Valid(DomainBody(d)) && Clean(d.name) <==> CleanDomain(d)
  {
    hide ParamsDoc, ConstraintsDoc, ParamMembers, ConstraintMembers, CleanParams, CleanConstraints, Keyed, Clean;
    hide IsBlank, Erase, Valid;
    WriterKeys();
    SectionsErased(d);
    NothingErased();
    ThreeKeys("\n", "\n", "params", ParamsDoc(d.params), "constraints", ConstraintsDoc(d.constraints),
              "explorations", ArrayDoc([], false, "\n"));
  }

  lemma {:induction false} DomainsErased(ds: seq<Domain>)
    ensures EraseMembers(DomainDocs(ds)) == DomainMembers(ds)
    ensures ValidMembers(DomainDocs(ds)) <==> CleanDomains(ds)
  {
    if ds == [] {
      NoMembers();
    } else {
      hide Keyed, DomainBody, DomainJson, EraseMembers, ValidMembers, Clean, Erase, Valid, IsBlank, CleanDomain;
      DomainsErased(ds[1..]);
      DomainErased(ds[0]);
      WriterKeys();
      NextErased("\n", ds[0].name, DomainBody(ds[0]), DomainDocs(ds[1..]));
    }
  }

  /** The description file is a document whose value is the registry's, exactly when every name and expression can
      stand between quotes as it is. */
  lemma RegistryErased(ds: seq<Domain>)
    ensures Erase(RegistryDoc(ds)) == RegistryJson(ds)
    ensures Valid(RegistryDoc(ds)) <==> CleanRegistry(ds)
  {
    hide DomainDocs, DomainMembers, EraseMembers, ValidMembers, CleanDomains, IsBlank;
    WriterKeys();
    DomainsErased(ds);
  }

  // ---------------------------------------------------------------- the text, piece by piece

  function Quote(s: string): string {
    "\"" + s + "\""
  }

  lemma Assoc(a: string, b: string, c: string)
    ensures a + b + c == a + (b + c)
  {
  }

  lemma KeyedShown(lead: string, key: string, value: Doc)
    ensures ShowMember(Keyed(lead, key, value)) == Quote(key) + (":" + Show(value))
  {
    hide Show;
    RawsPieces(key);
    hide Raws, ShowPieces;
    Assoc("\"", key, "\"");
    var q := Quote(key);
    assert q + "" == q && q + ":" + "" == q + ":";
    Assoc(q, ":", Show(value));
  }

  /** A member with what follows it. */
  function Entry(lead: string, key: string, value: Doc, rest: string): string {
    lead + (Quote(key) + (":" + (Show(value) + rest)))
  }

  lemma Regroup6(a: string, m: string, c: string, s: string, k: string)
    ensures a + m + "" + c + s + k == a + m + (c + (s + k))
  {
    assert a + m + "" == a + m;
    Assoc(a + m, c, s);
    Assoc(a + m, c + s, k);
    Assoc(c, s, k);
  }

  lemma EntryShown(lead: string, key: string, value: Doc, rest: seq<MemberDoc>, k: string)
    ensures ShowMembers([Keyed(lead, key, value)] + rest, false) + k
         == Entry(lead, key, value, Comma(|rest| + 1, false) + (ShowMembers(rest, false) + k))
  {
    KeyedShown(lead, key, value);
    var m := Keyed(lead, key, value);
    assert ([m] + rest)[1..] == rest;
    var c := Comma(|rest| + 1, false);
    assert ShowMembers([m] + rest, false) == lead + ShowMember(m) + "" + c + ShowMembers(rest, false);
    hide Show, ShowMember, ShowMembers, Comma, Keyed, Quote;
    Regroup6(lead, ShowMember(m), c, ShowMembers(rest, false), k);
    Assoc(lead, Quote(key) + (":" + Show(value)), c + (ShowMembers(rest, false) + k));
    Assoc(Quote(key), ":" + Show(value), c + (ShowMembers(rest, false) + k));
    Assoc(":", Show(value), c + (ShowMembers(rest, false) + k));
  }

  lemma LastShown(lead: string, key: string, value: Doc, k: string)
    ensures ShowMembers([Keyed(lead, key, value)], false) + k == Entry(lead, key, value, k)
  {
    EntryShown(lead, key, value, [], k);
    assert ShowMembers([], false) == "" && Comma(1, false) == "";
    hide Keyed, Entry, ShowMembers, Comma;
    assert [Keyed(lead, key, value)] + [] == [Keyed(lead, key, value)] && "" + ("" + k) == k;
  }

  /** The text of an object of three members. */
  lemma ThreeShown(lead: string, tail: string, ka: string, a: Doc, kb: string, b: Doc, kc: string, c: Doc)
    ensures Show(ObjectDoc([Keyed(lead, ka, a), Keyed(lead, kb, b), Keyed(lead, kc, c)], false, tail))
         == "{" + Entry(lead, ka, a, "," + Entry(lead, kb, b, "," + Entry(lead, kc, c, tail + "}")))
  {
    var ma, mb, mc := Keyed(lead, ka, a), Keyed(lead, kb, b), Keyed(lead, kc, c);
    var k := tail + "}";
    assert Comma(3, false) == "," && Comma(2, false) == ",";
    assert Show(ObjectDoc([ma, mb, mc], false, tail)) == "{" + ShowMembers([ma, mb, mc], false) + tail + "}";
    hide Show, ShowMembers, Entry, Comma, Keyed;
    EntryShown(lead, ka, a, [mb, mc], k);
    EntryShown(lead, kb, b, [mc], k);
    LastShown(lead, kc, c, k);
    assert [ma] + [mb, mc] == [ma, mb, mc] && [mb] + [mc] == [mb, mc];
    Assoc("{", ShowMembers([ma, mb, mc], false), tail);
    Assoc("{", ShowMembers([ma, mb, mc], false) + tail, "}");
    Assoc(ShowMembers([ma, mb, mc], false), tail, "}");
  }

  lemma ParamShown(p: Param)
    ensures Show(ParamBody(p))
         == "{\"range\":[" + (ShowItems(IntItems(ValuesOf(p)), false)
            + ("],\"type\":" + (Decimal(p.ptype) + (",\"default\":" + (Decimal(p.deflt) + "}")))))
  {
    var items := ShowItems(IntItems(ValuesOf(p)), false);
    var range := ArrayDoc(IntItems(ValuesOf(p)), false, "");
    ThreeShown("", "", "range", range, "type", NumberOf(p.ptype), "default", NumberOf(p.deflt));
    assert Show(range) == "[" + items + "" + "]";
    assert Show(NumberOf(p.ptype)) == Decimal(p.ptype) && Show(NumberOf(p.deflt)) == Decimal(p.deflt);
    hide Show, ShowItems, IntItems, Decimal, NumberOf, Keyed;
    ParamPieces(items, Decimal(p.ptype), Decimal(p.deflt));
  }

  lemma ParamPieces(items: string, t: string, d: string)
    ensures "{" + ("" + (Quote("range") + (":" + ("[" + items + "" + "]" + ("," + ("" + (Quote("type") + (":" + (t
            + ("," + ("" + (Quote("default") + (":" + (d + ("" + "}")))))))))))))))
         == "{\"range\":[" + (items + ("],\"type\":" + (t + (",\"default\":" + (d + "}")))))
  {
  }

  lemma RowPieces(s: string, r: string)
    ensures "\n" + s + "" + "," + ("\n" + r) == "\n" + (s + (",\n" + r))
    ensures "\n" + s + "" + "" + "" == "\n" + (s + ("" + ""))
  {
  }

  lemma {:induction false} RowsShown(ms: seq<MemberDoc>)
    requires ms != [] && forall m <- ms :: m.lead == "\n" && m.trail == ""
    ensures ShowMembers(ms, false) == "\n" + Rows(ms)
  {
    var m, rest := ms[0], ms[1..];
    var s := ShowMember(m);
    assert m in ms;
    assert ShowMembers(ms, false) == "\n" + s + "" + Comma(|ms|, false) + ShowMembers(rest, false);
    assert Rows(ms) == s + ((if |ms| > 1 then ",\n" else "") + Rows(rest));
    assert rest == [] ==> Rows(rest) == "" && ShowMembers(rest, false) == "";
    forall r | r in rest ensures r in ms {}
    hide ShowMember, ShowMembers, Rows;
    RowPieces(s, Rows(rest));
    if rest == [] {
    } else {
      RowsShown(rest);
    }
  }

  /** The members of an object one below the other, without the line break before the first. */
  function Rows(ms: seq<MemberDoc>): string {
    if ms == [] then "" else ShowMember(ms[0]) + ((if |ms| > 1 then ",\n" else "") + Rows(ms[1..]))
  }
}
