/** What the translator makes of each kind of line. */
module OcLines {
  import opened Options
  import opened Decimals
  import opened LuaPattern
  import opened LoopNest
  import opened OcText
  import OcParser

  predicate Lacks(s: string, c: char) {
    forall i :: 0 <= i < |s| ==> s[i] != c
  }

  lemma LacksJoin(a: string, b: string, c: char)
    requires Lacks(a, c) && Lacks(b, c)
    ensures Lacks(a + b, c)
  {
  }

  lemma LacksPair(s: string, a: char, b: char)
    requires Lacks(s, a) || Lacks(s, b)
    ensures NoPair(s, a, b)
  {
  }

  lemma LacksIn(s: string, c: char)
    requires Lacks(s, c)
    ensures c !in s
  {
  }

  lemma AtChar(s: string, p: nat, w: string, i: nat)
    requires At(s, p, w) && i < |w|
    ensures p + i < |s| && s[p + i] == w[i]
  {
  }

  lemma Suffix(x: string, y: string, z: string)
    ensures (x + (y + z))[|x| + |y|..] == z
  {
  }

  // ---------------------------------------------------------------- finding a `for`

  /** `c) {` up to the end of the line: the match comes back to the closing parenthesis. */
  lemma ThirdMatch(s: string, p: nat, c: string)
    requires At(s, p, c + ") {") && p + |c| + 3 == |s| && Lacks(s, '}')
    ensures MatchAt(s, p, OcParser.FOR_THIRD) == Some(|s| - 2)
  {
    AtParts(s, p, c, ") {");
    var n := |s| - p;
    AtChar(s, p + |c|, ") {", 0);
    AtChar(s, p + |c|, ") {", 1);
    AtChar(s, p + |c|, ") {", 2);
    forall i | p <= i < p + n ensures In(s[i], Not("}")) {}
    hide MatchAt;
    BackMatch(s, p, |c|, n, Not("}"), ')');
  }

  lemma UpToSemicolon(s: string, p: nat, a: string, rest: seq<Item>)
    requires At(s, p, a + ";") && Lacks(a, ';') && MatchAt(s, p + |a|, rest).Some?
    ensures MatchAt(s, p, [Star(Not(";"))] + rest) == MatchAt(s, p + |a|, rest)
  {
    AtParts(s, p, a, ";");
    forall i | p <= i < p + |a| ensures In(s[i], Not(";")) { assert s[p + (i - p)] == a[i - p]; }
    AtChar(s, p + |a|, ";", 0);
    hide MatchAt;
    RunMatch(s, p, |a|, Not(";"), rest);
  }

  lemma SecondMatch(s: string, p: nat, b: string, c: string)
    requires At(s, p, " " + (b + (";" + (c + ") {")))) && Lacks(b, ';') && Lacks(s, '}')
    requires p + |b| + |c| + 5 == |s|
    ensures MatchAt(s, p, OcParser.FOR_SECOND) == Some(|s| - 2)
  {
    hide MatchAt;
    AtParts(s, p, " ", b + (";" + (c + ") {")));
    AtParts(s, p + 1, b, ";" + (c + ") {"));
    AtParts(s, p + 1 + |b|, ";", c + ") {");
    AtParts(s, p + 1, b, ";");
    var q := p + 1 + |b|;
    AtChar(s, q, ";", 0);
    AtChar(s, p, " ", 0);
    ThirdMatch(s, q + 1, c);
    LiteralMatch(s, q, ';', OcParser.FOR_THIRD);
    UpToSemicolon(s, p + 1, b, [One(Is(';'))] + OcParser.FOR_THIRD);
    LiteralMatch(s, p, ' ', [Star(Not(";"))] + ([One(Is(';'))] + OcParser.FOR_THIRD));
  }

  lemma HeadMatch(s: string, p: nat, a: string, b: string, c: string)
    requires At(s, p, "for(" + (a + (";" + (" " + (b + (";" + (c + ") {"))))))) && Lacks(a, ';') && Lacks(b, ';')
    requires Lacks(s, '}') && p + |a| + |b| + |c| + 10 == |s|
    ensures MatchAt(s, p, OcParser.FOR_LINE) == Some(|s| - 2)
  {
    hide MatchAt;
    var later := " " + (b + (";" + (c + ") {")));
    AtParts(s, p, "for(", a + (";" + later));
    AtParts(s, p + 4, a, ";" + later);
    AtParts(s, p + 4 + |a|, ";", later);
    AtParts(s, p + 4, a, ";");
    var q := p + 4 + |a|;
    AtChar(s, p, "for(", 0);
    AtChar(s, p, "for(", 1);
    AtChar(s, p, "for(", 2);
    AtChar(s, p, "for(", 3);
    AtChar(s, q, ";", 0);
    hide At;
    SecondMatch(s, q + 1, b, c);
    LiteralMatch(s, q, ';', OcParser.FOR_SECOND);
    UpToSemicolon(s, p + 4, a, [One(Is(';'))] + OcParser.FOR_SECOND);
    var r3 := [Star(Not(";"))] + ([One(Is(';'))] + OcParser.FOR_SECOND);
    LiteralMatch(s, p + 3, '(', r3);
    LiteralMatch(s, p + 2, 'r', [One(Is('('))] + r3);
    LiteralMatch(s, p + 1, 'o', OcParser.FOR_REST);
    LiteralMatch(s, p, 'f', [One(Is('o'))] + OcParser.FOR_REST);
    assert [One(Is('f'))] + ([One(Is('o'))] + OcParser.FOR_REST) == OcParser.FOR_LINE;
  }

  /** Blanks before a line hide nothing. */
  lemma AfterLead(s: string, lead: string, c: char, rest: seq<Item>)
    requires At(s, 0, lead) && IsLead(lead) && c != ' ' && c != '\t' && |lead| <= |s|
    requires MatchAt(s, |lead|, [One(Is(c))] + rest).Some?
    ensures Find(s, [One(Is(c))] + rest) == Some((|lead|, MatchAt(s, |lead|, [One(Is(c))] + rest).value))
  {
    var pat := [One(Is(c))] + rest;
    forall i | 0 <= i < |lead| ensures MatchAt(s, i, pat) == None {
      assert s[0 + i] == lead[i];
      LiteralFails(s, i, c, rest);
    }
    hide MatchAt;
    FoundAt(s, 0, |lead|, pat);
  }

  lemma ForFound(lead: string, a: string, b: string, c: string)
    requires IsLead(lead) && Lacks(a, ';') && Lacks(b, ';') && Lacks(a, '}') && Lacks(b, '}') && Lacks(c, '}')
    ensures var s := lead + ("for(" + (a + (";" + (" " + (b + (";" + (c + ") {")))))));
            && |s| >= |lead| + 7 && Find(s, OcParser.FOR_LINE) == Some((|lead|, |s| - 2))
            && s[|lead| + 4..|s| - 3] == a + (";" + (" " + (b + (";" + c))))
  {
    hide MatchAt;
    var inner := a + (";" + (" " + (b + (";" + c))));
    var tail := "for(" + (a + (";" + (" " + (b + (";" + (c + ") {"))))));
    var s := lead + tail;
    AtStart(s, lead, tail);
    ForPieces(a, b, c);
    LacksClosing(lead, a, b, c);
    HeadMatch(s, |lead|, a, b, c);
    assert [One(Is('f'))] + ([One(Is('o'))] + OcParser.FOR_REST) == OcParser.FOR_LINE;
    AfterLead(s, lead, 'f', [One(Is('o'))] + OcParser.FOR_REST);
    AtParts(s, |lead|, "for(", inner + ") {");
    AtParts(s, |lead| + 4, inner, ") {");
    AtSlice(s, |lead| + 4, inner);
  }

  lemma ForPieces(a: string, b: string, c: string)
    ensures "for(" + (a + (";" + (" " + (b + (";" + (c + ") {"))))))
         == "for(" + ((a + (";" + (" " + (b + (";" + c))))) + ") {")
  {
    Reassoc(";", c, ") {");
    Reassoc(b, ";" + c, ") {");
    Reassoc(" ", b + (";" + c), ") {");
    Reassoc(";", " " + (b + (";" + c)), ") {");
    Reassoc(a, ";" + (" " + (b + (";" + c))), ") {");
  }

  lemma Reassoc(a: string, b: string, c: string)
    ensures (a + b) + c == a + (b + c)
  {
  }

  lemma LacksClosing(lead: string, a: string, b: string, c: string)
    requires IsLead(lead) && Lacks(a, '}') && Lacks(b, '}') && Lacks(c, '}')
    ensures Lacks(lead + ("for(" + (a + (";" + (" " + (b + (";" + (c + ") {"))))))), '}')
  {
    LacksJoin(c, ") {", '}');
    LacksJoin(";", c + ") {", '}');
    LacksJoin(b, ";" + (c + ") {"), '}');
    LacksJoin(" ", b + (";" + (c + ") {")), '}');
    LacksJoin(";", " " + (b + (";" + (c + ") {"))), '}');
    LacksJoin(a, ";" + (" " + (b + (";" + (c + ") {")))), '}');
    LacksJoin("for(", a + (";" + (" " + (b + (";" + (c + ") {"))))), '}');
  }

  // ---------------------------------------------------------------- the terms of a `for`

  lemma TermsFound(a: string, b: string, c: string)
    requires Lacks(a, ';') && Lacks(b, ';')
    ensures OcParser.Terms(a + (";" + (" " + (b + (";" + c))))) == (a, " " + b, c)
  {
    var code := a + (";" + (" " + (b + (";" + c))));
    AtStart(code, a, ";" + (" " + (b + (";" + c))));
    CutAt(code, a, " " + (b + (";" + c)));
    var rest := " " + (b + (";" + c));
    Reassoc(" ", b, ";" + c);
    CutAt(rest, " " + b, c);
  }

  lemma CutAt(code: string, a: string, rest: string)
    requires code == a + (";" + rest) && Lacks(a, ';')
    ensures RunLength(code, 0, Not(";")) == |a| && code[..|a|] == a && OcParser.From(code, |a| + 1) == rest
  {
    assert forall i :: 0 <= i < |a| ==> code[i] == a[i];
    assert code[|a|] == ';';
    forall i | 0 <= i < |a| ensures In(code[i], Not(";")) {}
    RunIs(code, 0, |a|, Not(";"));
  }

  lemma {:induction false} NoRelation(s: string, p: nat)
    requires p <= |s| && Lacks(s, '<') && Lacks(s, '>')
    ensures FindFrom(s, p, OcParser.AT_LEAST_OR_MOST) == None
    decreases |s| - p
  {
    if p >= |s| {
    } else {
      NoRelation(s, p + 1);
    }
  }

  lemma RelationMatch(s: string, p: nat)
    requires p + 2 <= |s| && s[p] == '<' && s[p + 1] == '='
    ensures MatchAt(s, p, OcParser.AT_LEAST_OR_MOST) == Some(p + 2)
  {
    var pat := OcParser.AT_LEAST_OR_MOST;
    assert pat[1..] == [One(Is('='))] && pat[1..][1..] == [];
    assert MatchAt(s, p + 2, []) == Some(p + 2);
    assert MatchAt(s, p + 1, pat[1..]) == Some(p + 2);
  }

  lemma RelationFound(x: string, y: string)
    requires Lacks(x, '<') && Lacks(x, '>')
    ensures Find(x + ("<=" + y), OcParser.AT_LEAST_OR_MOST) == Some((|x|, |x| + 2))
  {
    var s := x + ("<=" + y);
    assert s[|x|] == '<' && s[|x| + 1] == '=';
    forall i | 0 <= i < |x| ensures MatchAt(s, i, OcParser.AT_LEAST_OR_MOST) == None { assert s[i] == x[i]; }
    RelationMatch(s, |x|);
    hide MatchAt;
    FoundAt(s, 0, |x|, OcParser.AT_LEAST_OR_MOST);
  }

  lemma PairMatch(s: string, p: nat, a: char, b: char)
    requires p + 2 <= |s| && s[p] == a && s[p + 1] == b
    ensures MatchAt(s, p, [One(Is(a)), One(Is(b))] + []) == Some(p + 2)
  {
    var none: seq<Item> := [];
    LiteralMatch(s, p, a, [One(Is(b))] + none);
    LiteralMatch(s, p + 1, b, none);
    assert [One(Is(a))] + ([One(Is(b))] + none) == [One(Is(a)), One(Is(b))] + none;
  }

  /** The pair of characters that follows text without the first of them. */
  lemma PairFound(x: string, a: char, b: char, y: string)
    requires Lacks(x, a)
    ensures Find(x + ([a, b] + y), [One(Is(a)), One(Is(b))] + []) == Some((|x|, |x| + 2))
  {
    var s := x + ([a, b] + y);
    var none: seq<Item> := [];
    assert s[|x|] == a && s[|x| + 1] == b;
    var pat := [One(Is(a)), One(Is(b))] + none;
    assert pat == [One(Is(a))] + ([One(Is(b))] + none);
    forall i | 0 <= i < |x| ensures MatchAt(s, i, pat) == None {
      assert s[i] == x[i];
      LiteralFails(s, i, a, [One(Is(b))] + none);
    }
    PairMatch(s, |x|, a, b);
    hide MatchAt;
    FoundAt(s, 0, |x|, pat);
  }

  lemma VarLacks(v: nat, c: char)
    requires !IsPlain(c) || c == '+'
    ensures Lacks(VarText(v), c)
  {
    OnlyDigits(v);
    hide Digits;
  }

  lemma PlainLacks(s: string, c: char)
    requires AllPlain(s) && !IsPlain(c)
    ensures Lacks(s, c)
  {
  }

  lemma InitLacks(v: nat, lo: Bound, c: char)
    requires !IsPlain(c) && c != ' ' && c != '='
    ensures Lacks(InitText(v, lo), c)
  {
    VarLacks(v, c);
    BoundPlain(lo);
    PlainLacks(BoundText(lo), c);
    hide VarText, BoundText;
    LacksJoin(VarText(v), " = ", c);
    LacksJoin(VarText(v) + " = ", BoundText(lo), c);
  }

  /** `t = lo` stays as it is. */
  lemma FirstTerm(v: nat, lo: Bound)
    ensures OcParser.Term(InitText(v, lo), OcParser.First) == Some(InitText(v, lo))
  {
    var s := InitText(v, lo);
    InitLacks(v, lo, '<');
    InitLacks(v, lo, '>');
    NoRelation(s, 0);
    InitPairs(v, lo);
    PairNeeded(s, 0, '+', '=', []);
    PairNeeded(s, 0, '+', '+', []);
    hide FindFrom, InitText;
  }

  lemma InitPairs(v: nat, lo: Bound)
    ensures NoPair(InitText(v, lo), '+', '=') && NoPair(InitText(v, lo), '+', '+')
  {
    VarLacks(v, '+');
    BoundPlain(lo);
    PlainLacks(BoundText(lo), '=');
    var w, t := VarText(v), BoundText(lo);
    hide VarText, BoundText;
    LacksJoin(w, " = ", '+');
    LacksPair(w + " = ", '+', '=');
    LacksPair(w + " = ", '+', '+');
    LacksPair(t, '+', '=');
    PairJoin(w + " = ", t, '+', '=');
    PairJoin(w + " = ", t, '+', '+');
  }

  lemma PairJoin(x: string, y: string, a: char, b: char)
    requires NoPair(x, a, b) && NoPair(y, a, b) && (x == "" || x[|x| - 1] != a)
    ensures NoPair(x + y, a, b)
  {
    var s := x + y;
    forall i | 0 <= i < |s| - 1 ensures !(s[i] == a && s[i + 1] == b) {
      if i + 1 < |x| {
        assert s[i] == x[i] && s[i + 1] == x[i + 1];
      } else if i >= |x| {
        assert s[i] == y[i - |x|] && s[i + 1] == y[i + 1 - |x|];
      }
    }
  }

  /** Of ` t <= hi` the bound is kept. */
  lemma SecondTerm(v: nat, hi: Bound)
    ensures OcParser.Term(" " + TestText(v, hi), OcParser.Second) == Some(" " + BoundText(hi))
  {
    VarLacks(v, '<');
    VarLacks(v, '>');
    hide VarText, BoundText, Lacks, OcParser.Term;
    TestKept(VarText(v), BoundText(hi));
  }

  lemma TestKept(w: string, t: string)
    requires Lacks(w, '<') && Lacks(w, '>')
    ensures OcParser.Term(" " + (w + " <= " + t), OcParser.Second) == Some(" " + t)
  {
    hide Find;
    var x := " " + w + " ";
    assert Lacks(x, '<') && Lacks(x, '>');
    hide Lacks;
    TestPieces(w, t);
    RelationFound(x, " " + t);
    Suffix(x, "<=", " " + t);
  }

  lemma TestPieces(w: string, t: string)
    ensures " " + (w + " <= " + t) == (" " + w + " ") + ("<=" + (" " + t))
  {
  }

  /** ` t++` gives nothing, and of ` t += s` the step is kept. */
  lemma ThirdTerm(v: nat, step: nat)
    ensures OcParser.Term(" " + StepText(v, step), OcParser.Third)
         == if step == 1 then None else Some(" " + Digits(step))
  {
    if step == 1 { Increment(v); } else { Advance(v, step); }
  }

  lemma Increment(v: nat)
    ensures OcParser.Term(" " + (VarText(v) + "++"), OcParser.Third) == None
  {
    VarLacks(v, '<');
    VarLacks(v, '>');
    VarLacks(v, '=');
    VarLacks(v, '+');
    var w := VarText(v);
    var s := " " + (w + "++");
    hide VarText;
    assert s == (" " + w) + (['+', '+'] + "");
    assert Lacks(s, '<') && Lacks(s, '>') && Lacks(s, '=') && Lacks(" " + w, '+');
    NoRelation(s, 0);
    LacksPair(s, '+', '=');
    PairNeeded(s, 0, '+', '=', []);
    hide FindFrom;
    PairFound(" " + w, '+', '+', "");
  }

  lemma Advance(v: nat, step: nat)
    ensures OcParser.Term(" " + (VarText(v) + " += " + Digits(step)), OcParser.Third) == Some(" " + Digits(step))
  {
    VarLacks(v, '<');
    VarLacks(v, '>');
    VarLacks(v, '+');
    DigitsPlain(step);
    PlainLacks(Digits(step), '<');
    PlainLacks(Digits(step), '>');
    hide VarText, Digits, Lacks, OcParser.Term;
    StepKept(VarText(v), Digits(step));
  }

  lemma StepKept(w: string, d: string)
    requires Lacks(w, '<') && Lacks(w, '>') && Lacks(w, '+') && Lacks(d, '<') && Lacks(d, '>')
    ensures OcParser.Term(" " + (w + " += " + d), OcParser.Third) == Some(" " + d)
  {
    hide FindFrom;
    var x := " " + w + " ";
    var s := " " + (w + " += " + d);
    assert Lacks(s, '<') && Lacks(s, '>') && Lacks(x, '+');
    hide Lacks;
    NoRelation(s, 0);
    AdvancePieces(w, d);
    PairFound(x, '+', '=', " " + d);
    Suffix(x, ['+', '='], " " + d);
  }

  lemma AdvancePieces(w: string, d: string)
    ensures " " + (w + " += " + d) == (" " + w + " ") + (['+', '='] + (" " + d))
  {
  }
}
