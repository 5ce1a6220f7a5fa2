/** The printing loops of `ATP_gen_descfile` (src/common/atpcommon.c), against the document they print. */
module DescWriter {
  import opened JsonSyntax
  import opened RegistryModel
  import opened Description

  /** The values after the first `k`, each after a comma. */
  function Later(vs: seq<Int32>, k: nat): string {
    if k < |vs| then "," + ShowItems(IntItems(vs[k..]), false) else ""
  }

  lemma ValueShown(vs: seq<Int32>, k: nat)
    requires k < |vs|
    ensures ShowItems(IntItems(vs[k..]), false) == Decimal(vs[k]) + Later(vs, k + 1)
  {
    assert vs[k..][1..] == vs[k + 1..] && vs[k..][0] == vs[k];
    var items := IntItems(vs[k..]);
    assert items[1..] == IntItems(vs[k + 1..]) && items[0] == ItemDoc("", NumberOf(vs[k]), "");
    assert Show(NumberOf(vs[k])) == Decimal(vs[k]);
    assert ShowItems(items, false)
        == "" + Decimal(vs[k]) + "" + Comma(|items|, false) + ShowItems(IntItems(vs[k + 1..]), false);
    assert k + 1 == |vs| ==> ShowItems(IntItems(vs[k + 1..]), false) == "";
    hide ShowItems, IntItems, Decimal;
    ItemPieces(Decimal(vs[k]), ShowItems(IntItems(vs[k + 1..]), false));
  }

  lemma ItemPieces(d: string, r: string)
    ensures "" + d + "" + "," + r == d + ("," + r) && "" + d + "" + "" + "" == d + ""
  {
  }

  method PrintValues(desc: string, vs: seq<Int32>) returns (out: string)
    ensures out == desc + ShowItems(IntItems(vs), false)
  {
    hide ShowItems, IntItems, Decimal;
    ghost var all := ShowItems(IntItems(vs), false);
    assert vs[0..] == vs;
    out := desc;
    if |vs| > 0 {
      ValueShown(vs, 0);
      out := out + Decimal(vs[0]);
      Assoc(desc, Decimal(vs[0]), Later(vs, 1));
    } else {
      NoValues();
    }
    var k := 1;
    while k < |vs|
      invariant out + Later(vs, k) == desc + all
    {
      ValueShown(vs, k);
      ghost var before := out;
      out := out + "," + Decimal(vs[k]);
      FourPieces(before, ",", Decimal(vs[k]), Later(vs, k + 1));
      k := k + 1;
    }
  }

  lemma NoValues()
    ensures ShowItems(IntItems([]), false) == ""
  {
  }

  lemma FourPieces(a: string, b: string, c: string, d: string)
    ensures a + b + c + d == a + (b + (c + d))
  {
    Assoc(a, b, c);
    Assoc(a, b + c, d);
    Assoc(b, c, d);
  }

  method PrintParam(desc: string, p: Param) returns (out: string)
    requires p.values.Some?
    ensures out == desc + (Quote(p.name) + (":" + Show(ParamBody(p))))
  {
    hide ShowItems, IntItems, Decimal, Show, Quote, ParamBody;
    ghost var items := ShowItems(IntItems(p.values.value), false);
    out := desc + Quote(p.name) + ":{\"range\":[";
    ghost var head := out;
    out := PrintValues(out, p.values.value);
    out := out + "],\"type\":" + Decimal(p.ptype);
    out := out + ",\"default\":" + Decimal(p.deflt) + "}";
    ParamShown(p);
    ParamPrinted(desc, Quote(p.name), items, Decimal(p.ptype), Decimal(p.deflt));
  }

  lemma ParamPrinted(desc: string, name: string, items: string, t: string, d: string)
    ensures desc + name + ":{\"range\":[" + items + "],\"type\":" + t + ",\"default\":" + d + "}"
         == desc + (name + (":" + ("{\"range\":[" + (items + ("],\"type\":" + (t + (",\"default\":" + (d + "}"))))))))
  {
  }

  /** A row, and the rows below it. */
  lemma ParamRow(ps: seq<Param>, j: nat)
    requires j < |ps|
    ensures Rows(ParamDocs(ps[j..]))
         == (Quote(ps[j].name) + (":" + Show(ParamBody(ps[j]))))
            + ((if j != |ps| - 1 then ",\n" else "") + Rows(ParamDocs(ps[j + 1..])))
  {
    assert ps[j..][1..] == ps[j + 1..] && ps[j..][0] == ps[j];
    KeyedShown("\n", ps[j].name, ParamBody(ps[j]));
    hide Show, ShowMember, ParamBody;
    assert ParamDocs(ps[j..]) == [Keyed("\n", ps[j].name, ParamBody(ps[j]))] + ParamDocs(ps[j + 1..]);
  }

  lemma ConstraintRow(cs: seq<Constraint>, j: nat)
    requires j < |cs|
    ensures Rows(ConstraintDocs(cs[j..]))
         == (Quote(cs[j].name) + (":" + Show(ConstraintBody(cs[j]))))
            + ((if j != |cs| - 1 then ",\n" else "") + Rows(ConstraintDocs(cs[j + 1..])))
  {
    assert cs[j..][1..] == cs[j + 1..] && cs[j..][0] == cs[j];
    KeyedShown("\n", cs[j].name, ConstraintBody(cs[j]));
    hide Show, ShowMember, ConstraintBody;
    assert ConstraintDocs(cs[j..]) == [Keyed("\n", cs[j].name, ConstraintBody(cs[j]))] + ConstraintDocs(cs[j + 1..]);
  }

  lemma DomainRow(ds: seq<Domain>, j: nat)
    requires j < |ds|
    ensures Rows(DomainDocs(ds[j..]))
         == (Quote(ds[j].name) + (":" + Show(DomainBody(ds[j]))))
            + ((if j != |ds| - 1 then ",\n" else "") + Rows(DomainDocs(ds[j + 1..])))
  {
    assert ds[j..][1..] == ds[j + 1..] && ds[j..][0] == ds[j];
    KeyedShown("\n", ds[j].name, DomainBody(ds[j]));
    hide Show, ShowMember, DomainBody;
    assert DomainDocs(ds[j..]) == [Keyed("\n", ds[j].name, DomainBody(ds[j]))] + DomainDocs(ds[j + 1..]);
  }

  /** The line break after every row but the last. */
  method PrintBreak(desc: string, last: bool, ghost row: string, ghost rest: string) returns (out: string)
    ensures out + rest == desc + ((if last then "" else ",\n") + rest)
  {
    out := desc;
    if !last {
      out := out + ",\n";
      Assoc(desc, ",\n", rest);
    } else {
      assert "" + rest == rest;
    }
  }

  lemma NoRows()
    ensures Rows([]) == ""
  {
  }

  predicate Valued(ps: seq<Param>) {
    forall i :: 0 <= i < |ps| ==> ps[i].values.Some?
  }

  /** The rows of a domain's parameters; not `ok` when a parameter's values were never set. */
  method PrintParams(desc: string, ps: seq<Param>) returns (ok: bool, out: string)
    ensures ok <==> Valued(ps)
    ensures ok ==> out == desc + Rows(ParamDocs(ps))
  {
    hide Rows, ParamDocs, ParamBody, Show, Quote;
    ok, out := true, desc;
    assert ps[0..] == ps && ps[|ps|..] == [];
    for j := 0 to |ps|
      invariant out + Rows(ParamDocs(ps[j..])) == desc + Rows(ParamDocs(ps))
      invariant forall i :: 0 <= i < j ==> ps[i].values.Some?
    {
      if ps[j].values.None? { return false, out; }
      ParamRow(ps, j);
      ghost var row, rest := Quote(ps[j].name) + (":" + Show(ParamBody(ps[j]))), Rows(ParamDocs(ps[j + 1..]));
      ghost var before := out;
      out := PrintParam(out, ps[j]);
      Assoc(before, row, (if j != |ps| - 1 then ",\n" else "") + rest);
      out := PrintBreak(out, j == |ps| - 1, row, rest);
    }
    NoParams();
  }

  lemma NoParams()
    ensures Rows(ParamDocs([])) == "" && Rows(ConstraintDocs([])) == "" && Rows(DomainDocs([])) == ""
  {
  }

  method PrintConstraint(desc: string, c: Constraint) returns (out: string)
    ensures out == desc + (Quote(c.name) + (":" + Show(ConstraintBody(c))))
  {
    hide Show, ConstraintBody;
    out := desc + Quote(c.name) + ":{\"expr\":" + Quote(c.expr) + "}";
    ConstraintShown(c);
    ConstraintPrinted(desc, Quote(c.name), Quote(c.expr));
  }

  lemma ConstraintPrinted(desc: string, name: string, expr: string)
    ensures desc + name + ":{\"expr\":" + expr + "}" == desc + (name + (":" + ("{\"expr\":" + (expr + "}"))))
  {
  }

  lemma ConstraintShown(c: Constraint)
    ensures Show(ConstraintBody(c)) == "{\"expr\":" + (Quote(c.expr) + "}")
  {
    var s := StringDoc(Raws(c.expr));
    assert Show(s) == Quote(c.expr) by { RawsPieces(c.expr); }
    assert Show(ConstraintBody(c)) == "{" + ShowMembers([Keyed("", "expr", s)], false) + "" + "}";
    hide Show, ShowMembers, Raws;
    LastShown("", "expr", s, "");
    var m := ShowMembers([Keyed("", "expr", s)], false);
    assert m + "" == m;
    ExprPieces(Quote(c.expr));
  }

  lemma ExprPieces(e: string)
    ensures "{" + ("" + (Quote("expr") + (":" + (e + "")))) + "" + "}" == "{\"expr\":" + (e + "}")
  {
  }

  method PrintConstraints(desc: string, cs: seq<Constraint>) returns (out: string)
    ensures out == desc + Rows(ConstraintDocs(cs))
  {
    hide Rows, ConstraintDocs, ConstraintBody, Show, Quote;
    out := desc;
    assert cs[0..] == cs && cs[|cs|..] == [];
    for j := 0 to |cs|
      invariant out + Rows(ConstraintDocs(cs[j..])) == desc + Rows(ConstraintDocs(cs))
    {
      ConstraintRow(cs, j);
      ghost var row, rest := Quote(cs[j].name) + (":" + Show(ConstraintBody(cs[j]))), Rows(ConstraintDocs(cs[j + 1..]));
      ghost var before := out;
      out := PrintConstraint(out, cs[j]);
      Assoc(before, row, (if j != |cs| - 1 then ",\n" else "") + rest);
      out := PrintBreak(out, j == |cs| - 1, row, rest);
    }
    NoParams();
  }

  // ---------------------------------------------------------------- a domain

  /** An object with all its members on lines of their own, and one without members. */
  lemma LinesShown(ms: seq<MemberDoc>, tail: string)
    requires forall m <- ms :: m.lead == "\n" && m.trail == ""
    ensures ms != [] ==> Show(ObjectDoc(ms, false, tail)) == "{" + ("\n" + Rows(ms)) + tail + "}"
    ensures ms == [] ==> Show(ObjectDoc(ms, false, tail)) == "{" + "" + tail + "}"
  {
    if ms == [] { NoRows(); } else { RowsShown(ms); }
    hide Rows;
  }

  lemma ParamsShown(ps: seq<Param>)
    ensures Show(ParamsDoc(ps)) == "{\n" + (Rows(ParamDocs(ps)) + "\n}")
  {
    hide Show, Rows, ParamDocs;
    AllLined(ps, [], []);
    LinesShown(ParamDocs(ps), if ps == [] then "\n\n" else "\n");
    NoParams();
    EmptyBody();
    BodyPieces(Rows(ParamDocs(ps)));
  }

  lemma BodyPieces(r: string)
    ensures "{" + ("\n" + r) + "\n" + "}" == "{\n" + (r + "\n}")
    ensures "{" + ("\n" + r) + "" + "}" == "{\n" + (r + "}")
  {
  }

  lemma EmptyBody()
    ensures "{" + "" + "\n\n" + "}" == "{\n" + ("" + "\n}") && "{" + "" + "\n" + "}" == "{\n" + ("" + "}")
  {
  }

  lemma ConstraintsShown(cs: seq<Constraint>)
    ensures Show(ConstraintsDoc(cs)) == "{\n" + (Rows(ConstraintDocs(cs)) + "}")
  {
    hide Show, Rows, ConstraintDocs;
    AllLined([], cs, []);
    LinesShown(ConstraintDocs(cs), if cs == [] then "\n" else "");
    NoParams();
    EmptyBody();
    BodyPieces(Rows(ConstraintDocs(cs)));
  }

  lemma {:induction false} AllLined(ps: seq<Param>, cs: seq<Constraint>, ds: seq<Domain>)
    ensures forall m <- ParamDocs(ps) :: m.lead == "\n" && m.trail == ""
    ensures forall m <- ConstraintDocs(cs) :: m.lead == "\n" && m.trail == ""
    ensures forall m <- DomainDocs(ds) :: m.lead == "\n" && m.trail == ""
  {
    hide ParamBody, ConstraintBody, DomainBody;
    if ps != [] {
      AllLined(ps[1..], cs, ds);
    } else if cs != [] {
      AllLined([], cs[1..], ds);
    } else if ds != [] {
      AllLined([], [], ds[1..]);
    }
  }

  lemma DomainShown(d: Domain)
    ensures Show(DomainBody(d))
         == "{\n\"params\":{\n" + (Rows(ParamDocs(d.params)) + ("\n},\n\"constraints\":{\n"
            + (Rows(ConstraintDocs(d.constraints)) + "},\n\"explorations\":[\n]\n}")))
  {
    var es := ArrayDoc([], false, "\n");
    assert Show(es) == "[" + "" + "\n" + "]";
    assert Show(es) == "[\n]";
    ThreeShown("\n", "\n", "params", ParamsDoc(d.params), "constraints", ConstraintsDoc(d.constraints),
               "explorations", es);
    ParamsShown(d.params);
    ConstraintsShown(d.constraints);
    hide Show, Rows, ParamDocs, ConstraintDocs, ParamsDoc, ConstraintsDoc, Keyed;
    DomainPieces(Rows(ParamDocs(d.params)), Rows(ConstraintDocs(d.constraints)));
  }

  lemma DomainPieces(p: string, c: string)
    ensures "{" + ("\n" + (Quote("params") + (":" + (("{\n" + (p + "\n}"))
            + ("," + ("\n" + (Quote("constraints") + (":" + (("{\n" + (c + "}"))
            + ("," + ("\n" + (Quote("explorations") + (":" + ("[\n]" + ("\n" + "}")))))))))))))))
         == "{\n\"params\":{\n" + (p + ("\n},\n\"constraints\":{\n" + (c + "},\n\"explorations\":[\n]\n}")))
  {
    LastSection(c);
    hide Quote;
    MiddleSection(p, c + "},\n\"explorations\":[\n]\n}");
  }

  lemma LastSection(c: string)
    ensures ("{\n" + (c + "}")) + ("," + ("\n" + (Quote("explorations") + (":" + ("[\n]" + ("\n" + "}"))))))
         == "{\n" + (c + "},\n\"explorations\":[\n]\n}")
  {
  }

  lemma MiddleSection(p: string, k: string)
    ensures "{" + ("\n" + (Quote("params") + (":" + (("{\n" + (p + "\n}"))
            + ("," + ("\n" + (Quote("constraints") + (":" + ("{\n" + k)))))))))
         == "{\n\"params\":{\n" + (p + ("\n},\n\"constraints\":{\n" + k))
  {
  }

  /** One domain, up to its closing brace.  The loop over the explorations never runs, since none are counted. */
  method PrintDomain(desc: string, d: Domain) returns (ok: bool, out: string)
    ensures ok <==> Valued(d.params)
    ensures ok ==> out == desc + (Quote(d.name) + (":" + Show(DomainBody(d))))
  {
    hide Show, Rows, ParamDocs, ConstraintDocs, DomainBody, Quote;
    out := desc + Quote(d.name) + ":{\n" + "\"params\":{\n";
    ok, out := PrintParams(out, d.params);
    if !ok { return; }
    out := out + "\n},\n" + "\"constraints\":{\n";
    out := PrintConstraints(out, d.constraints);
    out := out + "},\n" + "\"explorations\":[\n" + "]\n" + "}";
    DomainShown(d);
    DomainPrinted(desc, Quote(d.name), Rows(ParamDocs(d.params)), Rows(ConstraintDocs(d.constraints)));
  }

  lemma DomainPrinted(desc: string, name: string, p: string, c: string)
    ensures desc + name + ":{\n" + "\"params\":{\n" + p + "\n},\n" + "\"constraints\":{\n" + c
            + "},\n" + "\"explorations\":[\n" + "]\n" + "}"
         == desc + (name + (":" + ("{\n\"params\":{\n" + (p + ("\n},\n\"constraints\":{\n"
            + (c + "},\n\"explorations\":[\n]\n}"))))))
  {
    var open, middle := "{\n\"params\":{\n", "\n},\n\"constraints\":{\n";
    var end := "},\n\"explorations\":[\n]\n}";
    PrintedPieces();
    LeftToRight(desc, name, ":{\n", "\"params\":{\n", p, "\n},\n", "\"constraints\":{\n", c);
    var head := desc + (name + ((":{\n" + "\"params\":{\n") + (p + (("\n},\n" + "\"constraints\":{\n") + c))));
    FourPieces(head + "},\n", "\"explorations\":[\n", "]\n", "}");
    Assoc(head, "},\n", "\"explorations\":[\n" + ("]\n" + "}"));
    SevenPieces(desc, name, ":" + open, p, middle, c, end);
    Assoc(":", open, p + (middle + (c + end)));
  }

  lemma PrintedPieces()
    ensures ":{\n" + "\"params\":{\n" == ":" + "{\n\"params\":{\n"
    ensures "\n},\n" + "\"constraints\":{\n" == "\n},\n\"constraints\":{\n"
    ensures "},\n" + ("\"explorations\":[\n" + ("]\n" + "}")) == "},\n\"explorations\":[\n]\n}"
  {
  }

  lemma LeftToRight(a: string, b: string, c: string, d: string, e: string, f: string, g: string, h: string)
    ensures a + b + c + d + e + f + g + h == a + (b + ((c + d) + (e + ((f + g) + h))))
  {
    Assoc(a + b, c, d);
    Assoc(a + b + (c + d) + e, f, g);
    FourPieces(a + b + (c + d), e, f + g, h);
    FourPieces(a, b, c + d, e + ((f + g) + h));
  }

  lemma SevenPieces(a: string, b: string, c: string, d: string, e: string, f: string, g: string)
    ensures a + (b + (c + (d + (e + f)))) + g == a + (b + (c + (d + (e + (f + g)))))
  {
    Assoc(a, b + (c + (d + (e + f))), g);
    Assoc(b, c + (d + (e + f)), g);
    Assoc(c, d + (e + f), g);
    Assoc(d, e + f, g);
    Assoc(e, f, g);
  }

  // ---------------------------------------------------------------- the file

  /** The domains from the `i`-th on, each with the end of its last line. */
  function DomainLines(ds: seq<Domain>, i: nat): string
    requires i <= |ds|
  {
    if i == |ds| then "" else Rows(DomainDocs(ds[i..])) + "\n"
  }

  lemma NextLines(ds: seq<Domain>, i: nat)
    requires i < |ds|
    ensures DomainLines(ds, i)
         == (Quote(ds[i].name) + (":" + Show(DomainBody(ds[i]))))
            + ((if i != |ds| - 1 then ",\n" else "\n") + DomainLines(ds, i + 1))
  {
    hide Rows, DomainDocs, Show, DomainBody, Quote;
    DomainRow(ds, i);
    NoParams();
    var row, rest := Quote(ds[i].name) + (":" + Show(DomainBody(ds[i]))), Rows(DomainDocs(ds[i + 1..]));
    if i == |ds| - 1 {
      assert ds[i + 1..] == [];
      assert row + ("" + "") + "\n" == row + ("\n" + "");
    } else {
      assert row + (",\n" + rest) + "\n" == row + (",\n" + (rest + "\n"));
    }
  }

  lemma RegistryShown(ds: seq<Domain>)
    ensures DescText(ds) == "{\n" + (DomainLines(ds, 0) + "}\n")
  {
    hide Rows, DomainDocs, Show;
    AllLined([], [], ds);
    LinesShown(DomainDocs(ds), "\n");
    assert ds[0..] == ds;
    FilePieces(Rows(DomainDocs(ds)));
  }

  lemma FilePieces(r: string)
    ensures "{" + ("\n" + r) + "\n" + "}" + "\n" == "{\n" + ((r + "\n") + "}\n")
    ensures "{" + "" + "\n" + "}" + "\n" == "{\n" + ("" + "}\n")
  {
  }

  lemma FiveLines(a: string, b: string, c: string, d: string, e: string)
    ensures a + (b + (c + d) + e) == a + b + c + (d + e)
  {
    Assoc(b, c + d, e);
    Assoc(c, d, e);
    Assoc(a, b, c + (d + e));
    Assoc(a + b, c, d + e);
  }

  lemma NoLines(ds: seq<Domain>)
    ensures DomainLines(ds, |ds|) + "}\n" == "}\n"
  {
  }

  /** A domain with the end of its last line. */
  method PrintLine(desc: string, d: Domain, last: bool, ghost ds: seq<Domain>, ghost i: nat)
    returns (ok: bool, out: string)
    requires i < |ds| && d == ds[i] && last == (i == |ds| - 1)
    ensures ok <==> Valued(d.params)
    ensures ok ==> out + (DomainLines(ds, i + 1) + "}\n") == desc + (DomainLines(ds, i) + "}\n")
  {
    hide DomainLines, DomainBody, Show, Quote;
    ghost var row := Quote(d.name) + (":" + Show(DomainBody(d)));
    NextLines(ds, i);
    ok, out := PrintDomain(desc, d);
    if !ok { return; }
    var end := if last then "\n" else ",\n";
    out := out + end;
    FiveLines(desc, row, end, DomainLines(ds, i + 1), "}\n");
  }
}
