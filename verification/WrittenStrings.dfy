/** Where the names and expressions of a registry stand in its description file: between two quotes, and after the
    second the next quote follows a brace or a line break. */
module WrittenStrings {
  import opened JsonSyntax
  import opened RegistryModel
  import opened Description
  import opened DescWriter
  import opened LoadedStrings

  /** The string `t[a..b]`, between quotes; the next quote is at `c`. */
  datatype Slot = Slot(a: nat, b: nat, c: nat)

  predicate IsSlot(t: string, s: Slot) {
    && 1 <= s.a <= s.b < s.b + 1 < s.c < |t|
    && t[s.a - 1] == t[s.b] == t[s.c] == '"' && (s.a > 1 ==> t[s.a - 2] != '\\')
    && (t[s.c - 1] == '{' || t[s.c - 1] == '\n') && forall i :: s.b < i < s.c ==> CleanChar(t[i])
  }

  /** Every backslash of `t` is in a string of `raws` that stands in such a place. */
  ghost predicate Slotted(t: string, raws: set<string>) {
    forall x :: 0 <= x < |t| && t[x] == '\\' ==> exists s :: InSlot(t, x, s, raws)
  }

  predicate InSlot(t: string, x: int, s: Slot, raws: set<string>) {
    IsSlot(t, s) && s.a <= x < s.b && t[s.a..s.b] in raws
  }

  /** Up to the first quote there is nothing special, and before it is a brace or a line break. */
  ghost predicate Opens(t: string) {
    exists c :: OpensAt(t, c)
  }

  predicate OpensAt(t: string, c: int) {
    0 < c < |t| && t[c] == '"' && (t[c - 1] == '{' || t[c - 1] == '\n') && forall i :: 0 <= i < c ==> CleanChar(t[i])
  }

  predicate NoBackslash(s: string) {
    forall i :: 0 <= i < |s| ==> s[i] != '\\'
  }

  // ---------------------------------------------------------------- putting pieces together

  /** Only the last character before a slot matters. */
  lemma ShiftedSlot(u: string, v: string, x: int, s: Slot, raws: set<string>)
    requires u != "" && u[|u| - 1] != '\\' && InSlot(v, x, s, raws)
    ensures InSlot(u + v, |u| + x, Slot(|u| + s.a, |u| + s.b, |u| + s.c), raws)
  {
    var t := u + v;
    assert t[|u| + s.a..|u| + s.b] == v[s.a..s.b];
    assert forall i :: 0 <= i < |v| ==> t[|u| + i] == v[i];
    assert forall i :: |u| <= i < |t| ==> t[i] == v[i - |u|];
  }

  lemma LaterSlot(u: string, v: string, x: nat, raws: set<string>) returns (s: Slot)
    requires u != "" && u[|u| - 1] != '\\' && Slotted(v, raws) && x < |v| && v[x] == '\\'
    ensures InSlot(u + v, |u| + x, s, raws)
  {
    hide InSlot;
    var s' :| InSlot(v, x, s', raws);
    ShiftedSlot(u, v, x, s', raws);
    s := Slot(|u| + s'.a, |u| + s'.b, |u| + s'.c);
  }

  lemma Prepended(u: string, v: string, raws: set<string>)
    requires NoBackslash(u) && Slotted(v, raws)
    ensures Slotted(u + v, raws)
  {
    hide InSlot;
    assert u == "" || u[|u| - 1] != '\\';
    if u == "" {
      assert u + v == v;
    } else {
      forall x | 0 <= x < |u + v| && (u + v)[x] == '\\' ensures exists s :: InSlot(u + v, x, s, raws) {
        var s := LaterSlot(u, v, x - |u|, raws);
      }
    }
  }

  lemma OpensEarly(u: string, v: string)
    requires Opens(u)
    ensures Opens(u + v)
  {
    var c :| OpensAt(u, c);
    assert forall i :: 0 <= i < |u| ==> (u + v)[i] == u[i];
    assert OpensAt(u + v, c);
  }

  lemma OpensLater(u: string, v: string)
    requires Opens(v) && forall i :: 0 <= i < |u| ==> CleanChar(u[i])
    ensures Opens(u + v)
  {
    var c :| OpensAt(v, c);
    var t, k := u + v, |u| + c;
    assert forall i :: |u| <= i < |t| ==> t[i] == v[i - |u|];
    assert t[k] == v[c] && t[k - 1] == v[c - 1];
    assert OpensAt(t, k);
  }

  lemma QuotedSlot(raw: string, rest: string, c: int)
    requires OpensAt(rest, c)
    ensures var t := Quote(raw) + rest;
            t[1..|raw| + 1] == raw && IsSlot(t, Slot(1, |raw| + 1, |raw| + 2 + c))
  {
    var t, n := Quote(raw) + rest, |raw|;
    assert t == "\"" + raw + ("\"" + rest);
    assert t[0] == '"' && t[n + 1] == '"';
    assert forall i :: n + 2 <= i < |t| ==> t[i] == rest[i - n - 2];
    assert t[n + 2 + c] == rest[c] && t[n + 1 + c] == rest[c - 1];
  }

  lemma Quoted(raw: string, rest: string, raws: set<string>)
    requires raw in raws && Opens(rest) && Slotted(rest, raws)
    ensures Slotted(Quote(raw) + rest, raws)
  {
    var u, n := Quote(raw), |raw|;
    assert |u| == n + 2 && u[n + 1] == '"' && u[0] == '"';
    var c :| OpensAt(rest, c);
    QuotedSlot(raw, rest, c);
    hide IsSlot, Quote, Opens, OpensAt;
    forall x | 0 <= x < |u + rest| && (u + rest)[x] == '\\' ensures exists s :: InSlot(u + rest, x, s, raws) {
      if x < n + 2 {
        assert (u + rest)[x] == u[x];
        assert InSlot(u + rest, x, Slot(1, n + 1, n + 2 + c), raws);
      } else {
        var s := LaterSlot(u, rest, x - n - 2, raws);
      }
    }
  }

  // ---------------------------------------------------------------- the rows of the file

  lemma PlainJoined(a: string, b: string)
    ensures NoBackslash(a + b) <==> NoBackslash(a) && NoBackslash(b)
  {
    if NoBackslash(a + b) {
      assert forall i :: 0 <= i < |a| ==> a[i] == (a + b)[i];
      assert forall i :: 0 <= i < |b| ==> b[i] == (a + b)[|a| + i];
    }
  }

  lemma DecimalPlain(n: Int32)
    ensures NoBackslash(Decimal(n))
  {
    DecimalRead(n);
    var m := NumeralOf(n);
    assert Decimal(n) == (if m.negative then "-" else "") + m.digits + "" + "";
    forall i | 0 <= i < |m.digits| ensures m.digits[i] != '\\' { assert m.digits[i] in m.digits; }
  }

  lemma {:induction false} IntsPlain(vs: seq<Int32>)
    ensures NoBackslash(ShowItems(IntItems(vs), false))
  {
    if vs == [] {
      NoValues();
    } else {
      IntsPlain(vs[1..]);
      DecimalPlain(vs[0]);
      DescWriter.ValueShown(vs, 0);
      assert vs[0..] == vs;
      hide ShowItems, IntItems, Decimal, NoBackslash;
      CommaPlain();
      PlainJoined(",", ShowItems(IntItems(vs[1..]), false));
      PlainJoined(Decimal(vs[0]), Later(vs, 1));
    }
  }

  lemma CommaPlain()
    ensures NoBackslash(",") && NoBackslash(":") && NoBackslash("") && NoBackslash("\n") && NoBackslash(",\n")
    ensures NoBackslash("{\n") && NoBackslash("}\n")
  {
  }

  lemma ParamPlain(p: Param)
    ensures NoBackslash(Show(ParamBody(p))) && Opens(":" + Show(ParamBody(p)))
  {
    var head, items := "{\"range\":[", ShowItems(IntItems(ValuesOf(p)), false);
    var t, d := Decimal(p.ptype), Decimal(p.deflt);
    ParamShown(p);
    IntsPlain(ValuesOf(p));
    DecimalPlain(p.ptype);
    DecimalPlain(p.deflt);
    ParamPieces();
    hide ShowItems, IntItems, Decimal, ValuesOf, Show, NoBackslash, Opens, ParamBody;
    PlainJoined(d, "}");
    PlainJoined(",\"default\":", d + "}");
    PlainJoined(t, ",\"default\":" + (d + "}"));
    PlainJoined("],\"type\":", t + (",\"default\":" + (d + "}")));
    PlainJoined(items, "],\"type\":" + (t + (",\"default\":" + (d + "}"))));
    var rest := items + ("],\"type\":" + (t + (",\"default\":" + (d + "}"))));
    PlainJoined(head, rest);
    OpensEarly(":" + head, rest);
    Assoc(":", head, rest);
  }

  lemma ParamPieces()
    ensures NoBackslash("{\"range\":[") && NoBackslash("],\"type\":") && NoBackslash(",\"default\":")
    ensures NoBackslash("}")
    ensures Opens(":" + "{\"range\":[")
  {
    assert OpensAt(":" + "{\"range\":[", 2);
  }

  /** The end of a row: a comma and a line break, unless it is the last. */
  function Break(last: bool): string {
    if last then "" else ",\n"
  }

  lemma Breaks(last: bool)
    ensures NoBackslash(Break(last)) && forall i :: 0 <= i < |Break(last)| ==> CleanChar(Break(last)[i])
  {
  }

  lemma BodyIn(name: string, body: string, k: string, raws: set<string>)
    requires name in raws && Opens(body) && Slotted(body + k, raws)
    ensures Slotted(Quote(name) + (body + k), raws)
  {
    OpensEarly(body, k);
    Quoted(name, body + k, raws);
  }

  lemma RowAssoc(name: string, body: string, br: string, rest: string, k: string)
    ensures name + body + (br + rest) + k == name + (body + (br + (rest + k)))
  {
    Assoc(name, body, br + rest);
    Assoc(name, body + (br + rest), k);
    Assoc(body, br + rest, k);
    Assoc(br, rest, k);
  }

  /** The rows of the parameters from the `j`-th on, with what follows them. */
  lemma {:induction false} ParamsIn(ps: seq<Param>, j: nat, k: string, raws: set<string>)
    requires j <= |ps| && Slotted(k, raws) && forall i :: 0 <= i < |ps| ==> ps[i].name in raws
    ensures Slotted(Rows(ParamDocs(ps[j..])) + k, raws)
    decreases |ps| - j
  {
    hide Rows, ParamDocs, ParamBody, Show, Quote, Slotted, NoBackslash, Opens;
    if j == |ps| {
      DescWriter.NoParams();
      assert ps[j..] == [] && "" + k == k;
    } else {
      var last := j == |ps| - 1;
      var body, rest := ":" + Show(ParamBody(ps[j])), Rows(ParamDocs(ps[j + 1..]));
      ParamRow(ps, j);
      ParamsIn(ps, j + 1, k, raws);
      Breaks(last);
      Prepended(Break(last), rest + k, raws);
      ParamPlain(ps[j]);
      CommaPlain();
      PlainJoined(":", Show(ParamBody(ps[j])));
      Prepended(body, Break(last) + (rest + k), raws);
      BodyIn(ps[j].name, body, Break(last) + (rest + k), raws);
      RowAssoc(Quote(ps[j].name), body, Break(last), rest, k);
    }
  }

  /** After an expression comes a brace, and then the next row or what follows the rows. */
  lemma ConstraintIn(c: Constraint, k: string, raws: set<string>)
    requires c.name in raws && c.expr in raws && Slotted(k, raws) && Opens(k)
    ensures Slotted(Quote(c.name) + (":" + Show(ConstraintBody(c)) + k), raws)
  {
    var head := ":{\"expr\":";
    ConstraintShown(c);
    ConstraintPieces();
    hide Show, ConstraintBody, Quote, Slotted, Opens, NoBackslash;
    Prepended("}", k, raws);
    OpensLater("}", k);
    Quoted(c.expr, "}" + k, raws);
    Prepended(head, Quote(c.expr) + ("}" + k), raws);
    OpensEarly(head, Quote(c.expr) + "}");
    ConstraintAssoc(Quote(c.expr), k);
    BodyIn(c.name, head + (Quote(c.expr) + "}"), k, raws);
  }

  lemma ConstraintAssoc(e: string, k: string)
    ensures ":{\"expr\":" + (e + "}") + k == ":{\"expr\":" + (e + ("}" + k))
    ensures ":" + ("{\"expr\":" + (e + "}")) == ":{\"expr\":" + (e + "}")
  {
    Assoc(":{\"expr\":", e + "}", k);
    Assoc(e, "}", k);
    Assoc(":", "{\"expr\":", e + "}");
    assert ":" + "{\"expr\":" == ":{\"expr\":";
  }

  lemma ConstraintPieces()
    ensures NoBackslash(":{\"expr\":") && NoBackslash("}") && CleanChar('}') && Opens(":{\"expr\":")
  {
    assert OpensAt(":{\"expr\":", 2);
  }

  lemma RowOpens(name: string, k: string)
    ensures Opens(",\n" + (Quote(name) + k))
  {
    assert (",\n" + (Quote(name) + k))[2] == '"';
    assert OpensAt(",\n" + (Quote(name) + k), 2);
  }

  lemma {:induction false} ConstraintsIn(cs: seq<Constraint>, j: nat, k: string, raws: set<string>)
    requires j <= |cs| && Slotted(k, raws) && Opens(k)
    requires forall i :: 0 <= i < |cs| ==> cs[i].name in raws && cs[i].expr in raws
    ensures Slotted(Rows(ConstraintDocs(cs[j..])) + k, raws)
    decreases |cs| - j
  {
    hide Rows, ConstraintDocs, ConstraintBody, Show, Quote, Slotted, NoBackslash, Opens;
    if j == |cs| {
      DescWriter.NoParams();
      assert cs[j..] == [] && "" + k == k;
    } else {
      var last := j == |cs| - 1;
      var body, rest := ":" + Show(ConstraintBody(cs[j])), Rows(ConstraintDocs(cs[j + 1..]));
      ConstraintRow(cs, j);
      ConstraintsIn(cs, j + 1, k, raws);
      Breaks(last);
      Prepended(Break(last), rest + k, raws);
      if last {
        DescWriter.NoParams();
        assert cs[j + 1..] == [] && "" + ("" + k) == k;
      } else {
        NextRowOpens(cs, j + 1, k);
      }
      ConstraintIn(cs[j], Break(last) + (rest + k), raws);
      RowAssoc(Quote(cs[j].name), body, Break(last), rest, k);
    }
  }

  lemma NextRowOpens(cs: seq<Constraint>, j: nat, k: string)
    requires j < |cs|
    ensures Opens(",\n" + (Rows(ConstraintDocs(cs[j..])) + k))
  {
    hide Rows, ConstraintDocs, ConstraintBody, Show, Quote, Opens;
    var last := j == |cs| - 1;
    var body, rest := ":" + Show(ConstraintBody(cs[j])), Rows(ConstraintDocs(cs[j + 1..]));
    ConstraintRow(cs, j);
    RowAssoc(Quote(cs[j].name), body, Break(last), rest, k);
    RowOpens(cs[j].name, body + (Break(last) + (rest + k)));
  }

  const OPEN: string := ":{\n\"params\":{\n"
  const MIDDLE: string := "\n},\n\"constraints\":{\n"
  const CLOSE: string := "},\n\"explorations\":[\n]\n}"

  lemma DomainPieces()
    ensures NoBackslash(OPEN) && NoBackslash(MIDDLE) && NoBackslash(CLOSE) && Opens(OPEN) && Opens(CLOSE)
    ensures ":" + "{\n\"params\":{\n" == OPEN
  {
    assert OpensAt(OPEN, 3) && OpensAt(CLOSE, 3);
  }

  lemma DomainAssoc(p: string, c: string, k: string)
    ensures OPEN + (p + (MIDDLE + (c + CLOSE))) + k == OPEN + (p + (MIDDLE + (c + (CLOSE + k))))
  {
    hide OPEN, MIDDLE, CLOSE;
    Assoc(OPEN, p + (MIDDLE + (c + CLOSE)), k);
    Assoc(p, MIDDLE + (c + CLOSE), k);
    Assoc(MIDDLE, c + CLOSE, k);
    Assoc(c, CLOSE, k);
  }

  lemma OneDomainIn(d: Domain, k: string, raws: set<string>)
    requires DomainIn(d, raws) && Slotted(k, raws)
    ensures Slotted(Quote(d.name) + (":" + Show(DomainBody(d)) + k), raws)
  {
    var p, c := Rows(ParamDocs(d.params)), Rows(ConstraintDocs(d.constraints));
    DomainPieces();
    DomainShown(d);
    assert Show(DomainBody(d)) == "{\n\"params\":{\n" + (p + (MIDDLE + (c + CLOSE)));
    Assoc(":", "{\n\"params\":{\n", p + (MIDDLE + (c + CLOSE)));
    hide Rows, ParamDocs, ConstraintDocs, Show, DomainBody, Quote, Slotted, Opens, NoBackslash, OPEN, MIDDLE, CLOSE;
    assert d.params[0..] == d.params && d.constraints[0..] == d.constraints;
    Prepended(CLOSE, k, raws);
    OpensEarly(CLOSE, k);
    ConstraintsIn(d.constraints, 0, CLOSE + k, raws);
    Prepended(MIDDLE, c + (CLOSE + k), raws);
    ParamsIn(d.params, 0, MIDDLE + (c + (CLOSE + k)), raws);
    Prepended(OPEN, p + (MIDDLE + (c + (CLOSE + k))), raws);
    DomainAssoc(p, c, k);
    OpensEarly(OPEN, p + (MIDDLE + (c + CLOSE)));
    BodyIn(d.name, OPEN + (p + (MIDDLE + (c + CLOSE))), k, raws);
  }

  lemma NothingIn(raws: set<string>)
    ensures Slotted("}\n", raws)
  {
  }

  lemma EachIn(ds: seq<Domain>, raws: set<string>, i: nat)
    requires RegistryIn(ds, raws) && i < |ds|
    ensures DomainIn(ds[i], raws)
  {
  }

  lemma {:induction false} DomainsIn(ds: seq<Domain>, i: nat, raws: set<string>)
    requires i <= |ds| && RegistryIn(ds, raws)
    ensures Slotted(DomainLines(ds, i) + "}\n", raws)
    decreases |ds| - i
  {
    hide DomainLines, DomainBody, Show, Quote, Slotted, NoBackslash, Opens, RegistryIn, DomainIn;
    CommaPlain();
    if i == |ds| {
      NoLines(ds);
      NothingIn(raws);
    } else {
      var end := if i != |ds| - 1 then ",\n" else "\n";
      var rest := DomainLines(ds, i + 1) + "}\n";
      var body := ":" + Show(DomainBody(ds[i]));
      NextLines(ds, i);
      DomainsIn(ds, i + 1, raws);
      Prepended(end, rest, raws);
      assert DomainIn(ds[i], raws) by { EachIn(ds, raws, i); }
      OneDomainIn(ds[i], end + rest, raws);
      RowAssoc(Quote(ds[i].name), body, end, DomainLines(ds, i + 1), "}\n");
    }
  }

  /** In the description file every backslash is part of a name or expression, which stands between quotes, and after
      the second of them the next quote follows a brace or a line break. */
  lemma FileIn(ds: seq<Domain>, raws: set<string>)
    requires RegistryIn(ds, raws)
    ensures Slotted(DescText(ds), raws)
  {
    hide DescText, DomainLines, Slotted, NoBackslash;
    CommaPlain();
    RegistryShown(ds);
    DomainsIn(ds, 0, raws);
    Prepended("{\n", DomainLines(ds, 0) + "}\n", raws);
  }
}
