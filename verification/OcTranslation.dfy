/** The translator as a compiler: the text it makes of a loop nest is the text of the nest's image, block by block,
    although it keeps no stack. */
module OcTranslation {
  import opened Options
  import opened Decimals
  import opened LuaPattern
  import opened LoopNest
  import opened OcText
  import opened OcLines
  import opened OcConditions
  import OcParser

  // ---------------------------------------------------------------- a `for`

  lemma TestLacks(v: nat, hi: Bound, c: char)
    requires !IsPlain(c) && c != ' ' && c != '<' && c != '='
    ensures Lacks(TestText(v, hi), c)
  {
    VarLacks(v, c);
    BoundPlain(hi);
    PlainLacks(BoundText(hi), c);
    hide VarText, BoundText;
    LacksJoin(VarText(v), " <= ", c);
    LacksJoin(VarText(v) + " <= ", BoundText(hi), c);
  }

  lemma StepLacks(v: nat, step: nat, c: char)
    requires !IsPlain(c) && c != ' ' && c != '='
    ensures Lacks(StepText(v, step), c)
  {
    VarLacks(v, c);
    DigitsPlain(step);
    PlainLacks(Digits(step), c);
    hide VarText, Digits;
    LacksJoin(VarText(v), "++", c);
    LacksJoin(VarText(v), " += ", c);
    LacksJoin(VarText(v) + " += ", Digits(step), c);
  }

  lemma ForShape(lead: string, v: nat, lo: Bound, hi: Bound, step: nat)
    ensures ForText(lead, v, lo, hi, step)
         == lead + ("for(" + (InitText(v, lo) + (";" + (" " + (TestText(v, hi)
            + (";" + ((" " + StepText(v, step)) + ") {")))))))
  {
    hide InitText, TestText, StepText;
    var a, b, c := InitText(v, lo), TestText(v, hi), StepText(v, step);
    assert ";" + " " == "; ";
    Reassoc(" ", c, ") {");
    Reassoc(";", " ", c + ") {");
    Reassoc(";", " ", b + (";" + ((" " + c) + ") {")));
  }

  /** The text of a `for` but for its first letter has no `f`. */
  lemma NoIfInFor(lead: string, v: nat, lo: Bound, hi: Bound, step: nat)
    requires IsLead(lead)
    ensures NoPair(ForText(lead, v, lo, hi, step), 'i', 'f')
  {
    InitLacks(v, lo, 'f');
    TestLacks(v, hi, 'f');
    StepLacks(v, step, 'f');
    hide InitText, TestText, StepText;
    var a, b, c := InitText(v, lo), TestText(v, hi), StepText(v, step);
    var rest := "or(" + (a + ("; " + (b + ("; " + (c + ") {")))));
    assert "f" + "or(" == "for(";
    Reassoc("f", "or(", a + ("; " + (b + ("; " + (c + ") {")))));
    Reassoc(lead, "f", rest);
    LacksJoin(c, ") {", 'f');
    LacksJoin("; ", c + ") {", 'f');
    LacksJoin(b, "; " + (c + ") {"), 'f');
    LacksJoin("; ", b + ("; " + (c + ") {")), 'f');
    LacksJoin(a, "; " + (b + ("; " + (c + ") {"))), 'f');
    LacksJoin("or(", a + ("; " + (b + ("; " + (c + ") {")))), 'f');
    LacksPair(lead + "f", 'i', 'f');
    LacksPair(rest, 'i', 'f');
    hide Lacks;
    PairJoin(lead + "f", rest, 'i', 'f');
  }

  /** A line whose three terms are known. */
  lemma ForAssembled(s: string, p: nat, inner: string, a: string, b: string, c: string, b': string, c': Option<string>)
    requires p + 7 <= |s| && Find(s, OcParser.FOR_LINE) == Some((p, |s| - 2)) && s[p + 4..|s| - 3] == inner
    requires OcParser.Terms(inner) == (a, b, c) && OcParser.Term(a, OcParser.First) == Some(a)
    requires OcParser.Term(b, OcParser.Second) == Some(b') && OcParser.Term(c, OcParser.Third) == c'
    ensures OcParser.For(s) == Some("for " + a + "," + b' + (if c'.Some? then "," + c'.value else "") + " do\n")
  {
    hide Find, OcParser.Terms, OcParser.Term;
  }

  lemma ForKnown(lead: string, a: string, b: string, c: string, b': string, c': Option<string>)
    requires IsLead(lead) && Lacks(a, ';') && Lacks(b, ';') && Lacks(a, '}') && Lacks(b, '}') && Lacks(c, '}')
    requires OcParser.Term(a, OcParser.First) == Some(a) && OcParser.Term(" " + b, OcParser.Second) == Some(b')
    requires OcParser.Term(c, OcParser.Third) == c'
    ensures var s := lead + ("for(" + (a + (";" + (" " + (b + (";" + (c + ") {")))))));
            && Find(s, OcParser.FOR_LINE).Some?
            && OcParser.For(s) == Some("for " + a + "," + b' + (if c'.Some? then "," + c'.value else "") + " do\n")
  {
    hide Lacks, IsLead, Find, OcParser.Terms, OcParser.Term, OcParser.For;
    var s := lead + ("for(" + (a + (";" + (" " + (b + (";" + (c + ") {")))))));
    ForFound(lead, a, b, c);
    TermsFound(a, b, c);
    ForAssembled(s, |lead|, a + (";" + (" " + (b + (";" + c)))), a, " " + b, c, b', c');
  }

  lemma ForHeadTranslated(lead: string, v: nat, lo: Bound, hi: Bound, step: nat)
    requires IsLead(lead)
    ensures Find(ForText(lead, v, lo, hi, step), OcParser.FOR_LINE).Some?
    ensures OcParser.For(ForText(lead, v, lo, hi, step)) == Some(LuaForText(v, lo, hi, step))
  {
    hide InitText, TestText, StepText, Digits, BoundText, IsLead, Lacks, Find, ForText, OcParser.Term, OcParser.For;
    InitLacks(v, lo, ';');
    TestLacks(v, hi, ';');
    InitLacks(v, lo, '}');
    TestLacks(v, hi, '}');
    SpacedStep(v, step);
    FirstTerm(v, lo);
    SecondTerm(v, hi);
    ThirdTerm(v, step);
    ForShape(lead, v, lo, hi, step);
    ForKnown(lead, InitText(v, lo), TestText(v, hi), " " + StepText(v, step), " " + BoundText(hi),
             if step == 1 then None else Some(" " + Digits(step)));
  }

  lemma SpacedStep(v: nat, step: nat)
    ensures Lacks(" " + StepText(v, step), '}')
  {
    StepLacks(v, step, '}');
    hide StepText;
    LacksJoin(" ", StepText(v, step), '}');
  }

  lemma ForLine(st: OcParser.State, lead: string, v: nat, lo: Bound, hi: Bound, step: nat)
    requires IsLead(lead)
    ensures OcParser.Line(st, ForText(lead, v, lo, hi, step))
         == Some(OcParser.Deeper(OcParser.Emit(st, LuaForText(v, lo, hi, step))))
  {
    var s := ForText(lead, v, lo, hi, step);
    ForHeadTranslated(lead, v, lo, hi, step);
    NoIfInFor(lead, v, lo, hi, step);
    PairNeeded(s, 0, 'i', 'f', OcParser.IF_REST);
    hide ForText, FindFrom, OcParser.For, LuaForText, NoPair;
  }

  // ---------------------------------------------------------------- an `if`

  lemma CondLacks(c: Cond, x: char)
    requires !IsCondChar(x)
    ensures Lacks(CondText(c), x)
  {
    CondChars(c);
  }

  lemma IfChars(s: string, p: nat, c: string)
    requires At(s, p, "if (" + (c + ") {"))
    ensures p + |c| + 7 <= |s| && s[p] == 'i' && s[p + 1] == 'f' && s[p + 2] == ' ' && s[p + 3] == '('
    ensures var q := p + 4 + |c|; s[q] == ')' && s[q + 1] == ' ' && s[q + 2] == '{'
  {
    AtParts(s, p, "if (", c + ") {");
    AtParts(s, p + 4, c, ") {");
    AtChar(s, p, "if (", 0);
    AtChar(s, p, "if (", 1);
    AtChar(s, p, "if (", 2);
    AtChar(s, p, "if (", 3);
    AtChar(s, p + 4 + |c|, ") {", 0);
    AtChar(s, p + 4 + |c|, ") {", 1);
    AtChar(s, p + 4 + |c|, ") {", 2);
  }

  lemma IfMatch(s: string, p: nat, c: string)
    requires At(s, p, "if (" + (c + ") {")) && p + |c| + 7 == |s|
    ensures MatchAt(s, p, OcParser.IF_LINE) == Some(|s| - 2)
  {
    IfChars(s, p, c);
    hide MatchAt, At, RunLength;
    var last := [Star(Any), One(Is(')'))];
    BackMatch(s, p + 4, |c|, |s| - p - 4, Any, ')');
    LiteralMatch(s, p + 3, '(', last);
    RunMatch(s, p + 2, 1, Space, [One(Is('('))] + last);
    LiteralMatch(s, p + 1, 'f', OcParser.IF_REST);
    LiteralMatch(s, p, 'i', [One(Is('f'))] + OcParser.IF_REST);
    assert [One(Is('i'))] + ([One(Is('f'))] + OcParser.IF_REST) == OcParser.IF_LINE;
  }

  lemma IfFound(lead: string, c: string)
    requires IsLead(lead)
    ensures var s := lead + ("if (" + (c + ") {"));
            Find(s, OcParser.IF_LINE) == Some((|lead|, |s| - 2)) && s[|lead|..|s| - 2] == "if (" + (c + ")")
  {
    var tail := "if (" + (c + ") {");
    var s := lead + tail;
    AtStart(s, lead, tail);
    IfMatch(s, |lead|, c);
    hide MatchAt;
    assert [One(Is('i'))] + ([One(Is('f'))] + OcParser.IF_REST) == OcParser.IF_LINE;
    AfterLead(s, lead, 'i', [One(Is('f'))] + OcParser.IF_REST);
    var head := "if (" + (c + ")");
    assert tail == head + " {";
    AtParts(s, |lead|, head, " {");
    AtSlice(s, |lead|, head);
  }

  lemma IfLine(st: OcParser.State, lead: string, c: Cond)
    requires IsLead(lead)
    ensures OcParser.Line(st, IfText(lead, c)) == Some(OcParser.Deeper(OcParser.Emit(st, LuaIfText(c))))
  {
    var s := IfText(lead, c);
    CondLacks(c, 'o');
    assert Lacks(s, 'o') by {
      LacksJoin(CondText(c), ") {", 'o');
      LacksJoin("if (", CondText(c) + ") {", 'o');
      LacksJoin(lead, "if (" + (CondText(c) + ") {"), 'o');
    }
    hide CondText, FindFrom, OcParser.If, LuaIfText;
    LacksPair(s, 'f', 'o');
    PairNeeded(s, 0, 'f', 'o', OcParser.FOR_REST);
    IfFound(lead, CondText(c));
    IfTranslated(c);
  }

  // ---------------------------------------------------------------- the end of a block, and no statement at all

  lemma EndLine(st: OcParser.State, close: string)
    requires IsLead(close)
    ensures OcParser.Line(st, close + "}") == Some(OcParser.Emit(OcParser.Shallower(st), "end\n"))
  {
    var s := close + "}";
    assert Lacks(s, 'o') && Lacks(s, 'f');
    LacksPair(s, 'f', 'o');
    PairNeeded(s, 0, 'f', 'o', OcParser.FOR_REST);
    LacksPair(s, 'i', 'f');
    PairNeeded(s, 0, 'i', 'f', OcParser.IF_REST);
    forall i | 0 <= i < |close| ensures In(s[i], Not("}")) {}
    var last := [One(Is('}'))];
    assert s[|close|] == '}' && MatchAt(s, |close|, last) == Some(|s|) by { LiteralEnd(s, |close|); }
    RunMatch(s, 0, |close|, Not("}"), last);
    assert [Star(Not("}"))] + last == OcParser.END_LINE;
    hide MatchAt;
    assert Find(s, OcParser.END_LINE).Some?;
    hide FindFrom;
  }

  /** The brace takes two characters off the indentation, or what there is of them, before `end` is written. */
  lemma EndLevel(st: OcParser.State, close: string)
    requires IsLead(close)
    ensures var r := OcParser.Line(st, close + "}");
            && r.Some? && r.value.code == st.code + (r.value.ident + "end\n")
            && |r.value.ident| == (if |st.ident| < 2 then 0 else |st.ident| - 2) && r.value.ident <= st.ident
  {
    EndLine(st, close);
    hide OcParser.Line;
    var r := OcParser.Shallower(st);
    assert st.code + r.ident + "end\n" == st.code + (r.ident + "end\n");
  }

  lemma LiteralEnd(s: string, p: nat)
    requires p + 1 == |s| && s[p] == '}'
    ensures MatchAt(s, p, [One(Is('}'))]) == Some(|s|)
  {
    assert [One(Is('}'))][1..] == [];
  }

  lemma {:induction false} NoWord(s: string, p: nat, rest: seq<Item>)
    requires p <= |s| && forall i :: 0 <= i < |s| ==> !IsAlNum(s[i])
    ensures FindFrom(s, p, [Item.Plus(AlNum)] + rest) == None
    decreases |s| - p
  {
    var pat := [Item.Plus(AlNum)] + rest;
    assert pat[0] == Item.Plus(AlNum) && RunLength(s, p, AlNum) == 0;
    assert MatchAt(s, p, pat) == Longest(s, p, 1, 0, pat[1..]);
    hide MatchAt;
    if p >= |s| {
    } else {
      NoWord(s, p + 1, rest);
    }
  }

  /** A line of blanks, such as the empty one that `gmatch` gives at the end of the text. */
  lemma BlankLine(st: OcParser.State, line: string)
    requires IsLead(line)
    ensures OcParser.Line(st, line) == Some(OcParser.Emit(st, LuaCommentText(line)))
  {
    LacksPair(line, 'f', 'o');
    LacksPair(line, 'i', 'f');
    PairNeeded(line, 0, 'f', 'o', OcParser.FOR_REST);
    PairNeeded(line, 0, 'i', 'f', OcParser.IF_REST);
    LacksIn(line, '}');
    CharNeeded(line, 0, Not("}"), '}');
    NoWord(line, 0, OcParser.GEN_LINE[1..]);
    assert [Item.Plus(AlNum)] + OcParser.GEN_LINE[1..] == OcParser.GEN_LINE;
    hide FindFrom;
  }

  // ---------------------------------------------------------------- a tuple

  lemma {:induction false} NoWordBefore(s: string, p: nat, q: nat, rest: seq<Item>)
    requires p <= q <= |s| && (forall i :: p <= i < q ==> !IsAlNum(s[i]))
    requires MatchAt(s, q, [Item.Plus(AlNum)] + rest).Some?
    ensures FindFrom(s, p, [Item.Plus(AlNum)] + rest) == Some((q, MatchAt(s, q, [Item.Plus(AlNum)] + rest).value))
  {
    var pat := [Item.Plus(AlNum)] + rest;
    forall i | p <= i < q ensures MatchAt(s, i, pat) == None {
      assert RunLength(s, i, AlNum) == 0;
      assert pat[0] == Item.Plus(AlNum) && pat[1..] == rest;
    }
    hide MatchAt;
    FoundAt(s, p, q, pat);
  }

  /** A name of a statement. */
  function Name(s: nat): string {
    "s" + Digits(s)
  }

  lemma NameChars(s: nat)
    ensures forall i :: 0 <= i < |Name(s)| ==> IsAlNum(Name(s)[i]) && Name(s)[i] != 'f' && Name(s)[i] != 'o'
    ensures Name(s) != ""
  {
    OnlyDigits(s);
  }

  lemma CallShape(s: string, lead: string, name: string, args: string)
    requires s == lead + (name + ("(" + (args + ");")))
    ensures var p := |lead|; var q := p + |name|;
            At(s, 0, lead) && At(s, p, name) && At(s, q, "(") && At(s, q + 1, args) && At(s, q + 1 + |args|, ");")
            && |s| == q + |args| + 3
  {
    AtStart(s, lead, name + ("(" + (args + ");")));
    AtParts(s, |lead|, name, "(" + (args + ");"));
    AtParts(s, |lead| + |name|, "(", args + ");");
    AtParts(s, |lead| + |name| + 1, args, ");");
  }

  /** From the name on. */
  lemma CallMatch(s: string, p: nat, q: nat, e: nat)
    requires p < q && q + 1 < e && e + 2 == |s| && s[q] == '(' && s[e] == ')' && s[e + 1] == ';'
    requires (forall i :: p <= i < q ==> IsAlNum(s[i])) && (forall i :: q + 1 <= i < e ==> s[i] != ')')
    ensures MatchAt(s, p, OcParser.GEN_LINE).Some? && MatchAt(s, p, OcParser.WORD) == Some(q)
  {
    var none: seq<Item> := [];
    assert MatchAt(s, |s|, none) == Some(|s|) && MatchAt(s, q, none) == Some(q);
    hide MatchAt, RunLength;
    var r1 := [One(Is(';'))] + none;
    var r2 := [One(Is(')'))] + r1;
    var r3 := [Item.Plus(Not(")"))] + r2;
    LiteralMatch(s, e + 1, ';', none);
    LiteralMatch(s, e, ')', r1);
    RunMatch(s, q + 1, e - q - 1, Not(")"), r2);
    LiteralMatch(s, q, '(', r3);
    RunMatch(s, p, q - p, AlNum, [One(Is('('))] + r3);
    RunMatch(s, p, q - p, AlNum, none);
  }

  lemma CallBounds(s: string, lead: string, name: string, args: string)
    requires IsLead(lead) && Flat(args) && forall i :: 0 <= i < |name| ==> IsAlNum(name[i])
    requires var p := |lead|; var q := p + |name|;
             && At(s, 0, lead) && At(s, p, name) && At(s, q, "(") && At(s, q + 1, args) && At(s, q + 1 + |args|, ");")
             && |s| == q + |args| + 3
    ensures var p := |lead|; var q := p + |name|; var e := q + 1 + |args|;
            && e + 2 == |s| && s[q] == '(' && s[e] == ')' && s[e + 1] == ';'
            && (forall i :: 0 <= i < p ==> !IsAlNum(s[i])) && (forall i :: p <= i < q ==> IsAlNum(s[i]))
            && forall i :: q + 1 <= i < e ==> s[i] != ')'
  {
    hide At, IsLead, Flat, IsAlNum;
    var q := |lead| + |name|;
    AtChar(s, q, "(", 0);
    AtChar(s, q + 1 + |args|, ");", 0);
    AtChar(s, q + 1 + |args|, ");", 1);
    LeadChars(s, lead);
    WordChars(s, |lead|, name);
    FlatChars(s, q + 1, args);
  }

  lemma LeadChars(s: string, lead: string)
    requires At(s, 0, lead) && IsLead(lead)
    ensures forall i :: 0 <= i < |lead| ==> !IsAlNum(s[i])
  {
    forall i | 0 <= i < |lead| ensures !IsAlNum(s[i]) { AtChar(s, 0, lead, i); }
  }

  lemma WordChars(s: string, p: nat, name: string)
    requires At(s, p, name) && forall i :: 0 <= i < |name| ==> IsAlNum(name[i])
    ensures forall i :: p <= i < p + |name| ==> IsAlNum(s[i])
  {
    hide IsAlNum;
    forall i | p <= i < p + |name| ensures IsAlNum(s[i]) { AtChar(s, p, name, i - p); }
  }

  lemma FlatChars(s: string, p: nat, args: string)
    requires At(s, p, args) && Flat(args)
    ensures forall i :: p <= i < p + |args| ==> s[i] != ')'
  {
    forall i | p <= i < p + |args| ensures s[i] != ')' { AtChar(s, p, args, i - p); }
  }

  lemma CallFound(lead: string, name: string, args: string)
    requires IsLead(lead) && name != "" && args != "" && Flat(args)
    requires forall i :: 0 <= i < |name| ==> IsAlNum(name[i])
    ensures var s := lead + (name + ("(" + (args + ");")));
            Find(s, OcParser.GEN_LINE).Some? && Find(s, OcParser.WORD) == Some((|lead|, |lead| + |name|))
  {
    var s := lead + (name + ("(" + (args + ");")));
    hide MatchAt, FindFrom, Flat, IsAlNum, IsLead, At;
    CallShape(s, lead, name, args);
    CallPlaces(s, lead, name, args);
  }

  lemma CallPlaces(s: string, lead: string, name: string, args: string)
    requires IsLead(lead) && name != "" && args != "" && Flat(args)
    requires forall i :: 0 <= i < |name| ==> IsAlNum(name[i])
    requires var p := |lead|; var q := p + |name|;
             && At(s, 0, lead) && At(s, p, name) && At(s, q, "(") && At(s, q + 1, args) && At(s, q + 1 + |args|, ");")
             && |s| == q + |args| + 3
    ensures Find(s, OcParser.GEN_LINE).Some? && Find(s, OcParser.WORD) == Some((|lead|, |lead| + |name|))
  {
    hide MatchAt, FindFrom, Flat, IsAlNum, IsLead, At;
    CallBounds(s, lead, name, args);
    CallMatch(s, |lead|, |lead| + |name|, |lead| + |name| + 1 + |args|);
    assert [Item.Plus(AlNum)] + OcParser.GEN_LINE[1..] == OcParser.GEN_LINE;
    NoWordBefore(s, 0, |lead|, OcParser.GEN_LINE[1..]);
    NoWordBefore(s, 0, |lead|, []);
  }

  lemma GenTranslated(lead: string, name: string, args: string)
    requires IsLead(lead) && name != "" && args != "" && Flat(args)
    requires forall i :: 0 <= i < |name| ==> IsAlNum(name[i])
    ensures OcParser.Gen(lead + (name + ("(" + (args + ");")))) == Some("{" + args + "};" + "\n")
  {
    CallFound(lead, name, args);
    var s := lead + (name + ("(" + (args + ");")));
    var tail := "(" + (args + ");");
    assert s == (lead + name) + ("" + tail) by { Reassoc(lead, name, tail); assert "" + tail == tail; }
    Suffix(lead + name, "", tail);
    assert s[|lead| + |name|..] == tail;
    hide Find, ReplaceChar;
    Braced(args);
  }

  lemma Braced(args: string)
    requires Flat(args)
    ensures ReplaceChar(ReplaceChar("(" + (args + ");"), '(', '{'), ')', '}') == "{" + args + "};"
  {
    var tail := "(" + (args + ");");
    var once := ReplaceChar(tail, '(', '{');
    assert once == "{" + (args + ");") by {
      forall i | 0 <= i < |tail| ensures once[i] == ("{" + (args + ");"))[i] {
        if 1 <= i <= |args| { assert tail[i] == args[i - 1]; }
      }
    }
    var twice := ReplaceChar(once, ')', '}');
    var want := "{" + args + "};";
    forall i | 0 <= i < |tail| ensures twice[i] == want[i] {
      if 1 <= i <= |args| { assert once[i] == args[i - 1] == want[i]; }
    }
    assert twice == want;
  }

  lemma CallLine(st: OcParser.State, lead: string, s: nat, args: seq<Affine>)
    requires IsLead(lead) && args != []
    ensures OcParser.Line(st, CallText(lead, s, args)) == Some(OcParser.Emit(st, LuaAppendText(args)))
  {
    NameChars(s);
    ArgsPlain(args);
    var text := CallText(lead, s, args);
    var name, a := Name(s), ArgsText(args);
    assert text == lead + (name + ("(" + (a + ");")));
    hide Name, ArgsText;
    CallLacks(lead, name, a);
    CallFound(lead, name, a);
    GenTranslated(lead, name, a);
    LacksPair(text, 'f', 'o');
    PairNeeded(text, 0, 'f', 'o', OcParser.FOR_REST);
    LacksPair(text, 'i', 'f');
    PairNeeded(text, 0, 'i', 'f', OcParser.IF_REST);
    LacksIn(text, '}');
    CharNeeded(text, 0, Not("}"), '}');
    hide FindFrom, OcParser.Gen, CallText, Lacks;
  }

  lemma CallLacks(lead: string, name: string, args: string)
    requires IsLead(lead) && AllPlain(args)
    requires forall i :: 0 <= i < |name| ==> IsAlNum(name[i]) && name[i] != 'f' && name[i] != 'o'
    ensures var s := lead + (name + ("(" + (args + ");"))); Lacks(s, 'f') && Lacks(s, 'o') && Lacks(s, '}')
  {
    CallLacksChar(lead, name, args, 'f');
    CallLacksChar(lead, name, args, 'o');
    CallLacksChar(lead, name, args, '}');
  }

  lemma CallLacksChar(lead: string, name: string, args: string, c: char)
    requires IsLead(lead) && AllPlain(args) && Lacks(name, c) && !IsPlain(c) && c != ' ' && c != '\t' && c != ';'
    ensures Lacks(lead + (name + ("(" + (args + ");"))), c)
  {
    PlainLacks(args, c);
    LacksJoin(args, ");", c);
    LacksJoin("(", args + ");", c);
    LacksJoin(name, "(" + (args + ");"), c);
    LacksJoin(lead, name + ("(" + (args + ");")), c);
  }
}
