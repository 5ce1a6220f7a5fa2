/** The replacement of the operators of C conditions by those of Lua. */
module OcConditions {
  import opened LuaPattern
  import opened LoopNest
  import opened OcText
  import opened OcLines
  import OcParser

  /** `gsub` works piece by piece when no pair straddles the pieces. */
  lemma {:induction false} ReplaceJoin(x: string, y: string, a: char, b: char, to: string)
    requires x == "" || x[|x| - 1] != a
    ensures ReplacePair(x + y, a, b, to) == ReplacePair(x, a, b, to) + ReplacePair(y, a, b, to)
    decreases |x|
  {
    if x == "" {
      assert x + y == y;
    } else {
      var n := if |x| > 1 && x[0] == a && x[1] == b then 2 else 1;
      var head := if n == 2 then to else [x[0]];
      assert (x + y)[n..] == x[n..] + y && (x + y)[0] == x[0];
      assert |x| > 1 ==> (x + y)[1] == x[1];
      assert ReplacePair(x, a, b, to) == head + ReplacePair(x[n..], a, b, to);
      assert ReplacePair(x + y, a, b, to) == head + ReplacePair(x[n..] + y, a, b, to);
      hide ReplacePair;
      ReplaceJoin(x[n..], y, a, b, to);
      Reassoc(head, ReplacePair(x[n..], a, b, to), ReplacePair(y, a, b, to));
    }
  }

  lemma {:induction false} ReplaceNone(x: string, a: char, b: char, to: string)
    requires Lacks(x, a)
    ensures ReplacePair(x, a, b, to) == x
    decreases |x|
  {
    if x == "" {
    } else {
      ReplaceNone(x[1..], a, b, to);
      assert x == [x[0]] + x[1..];
    }
  }

  /** The last character, unless it belongs to a pair, stays the last. */
  lemma {:induction false} ReplaceLast(x: string, a: char, b: char, to: string)
    requires x != "" && x[|x| - 1] != a && x[|x| - 1] != b
    ensures var r := ReplacePair(x, a, b, to); r != "" && r[|r| - 1] == x[|x| - 1]
    decreases |x|
  {
    if |x| > 1 && x[0] == a && x[1] == b {
      assert |x| > 2;
      ReplaceLast(x[2..], a, b, to);
    } else if |x| > 1 {
      ReplaceLast(x[1..], a, b, to);
    } else {
      assert ReplacePair(x[1..], a, b, to) == "";
    }
  }

  /** The three replacements of `parse_if`. */
  function Operators(x: string): string {
    ReplacePair(ReplacePair(ReplacePair(x, '|', '|', "or"), '&', '&', "and"), '!', '=', "~=")
  }

  /** Text that does not end in the middle of an operator. */
  predicate Closed(x: string) {
    x != "" && x[|x| - 1] != '|' && x[|x| - 1] != '&' && x[|x| - 1] != '!'
  }

  lemma OperatorsJoin(x: string, y: string)
    requires Closed(x)
    ensures Operators(x + y) == Operators(x) + Operators(y)
  {
    var x1, y1 := ReplacePair(x, '|', '|', "or"), ReplacePair(y, '|', '|', "or");
    var x2, y2 := ReplacePair(x1, '&', '&', "and"), ReplacePair(y1, '&', '&', "and");
    ReplaceJoin(x, y, '|', '|', "or");
    ReplaceLast(x, '|', '|', "or");
    hide ReplacePair;
    ReplaceJoin(x1, y1, '&', '&', "and");
    ReplaceLast(x1, '&', '&', "and");
    ReplaceJoin(x2, y2, '!', '=', "~=");
  }

  lemma OperatorsNone(x: string)
    requires Lacks(x, '|') && Lacks(x, '&') && Lacks(x, '!')
    ensures Operators(x) == x
  {
    ReplaceNone(x, '|', '|', "or");
    ReplaceNone(x, '&', '&', "and");
    ReplaceNone(x, '!', '=', "~=");
    hide ReplacePair;
  }

  lemma PairReplaced(a: char, b: char, to: string)
    ensures ReplacePair([a, b], a, b, to) == to
  {
    assert [a, b][2..] == "" && ReplacePair("", a, b, to) == "";
    assert to + "" == to;
  }

  lemma OperatorWords()
    ensures Operators("||") == "or" && Operators("&&") == "and" && Operators("!=") == "~="
  {
    PairReplaced('|', '|', "or");
    PairReplaced('&', '&', "and");
    PairReplaced('!', '=', "~=");
    ReplaceNone("or", '&', '&', "and");
    ReplaceNone("or", '!', '=', "~=");
    ReplaceNone("&&", '|', '|', "or");
    ReplaceNone("and", '!', '=', "~=");
    ReplaceNone("!=", '|', '|', "or");
    ReplaceNone("!=", '&', '&', "and");
    hide ReplacePair;
    assert ['|', '|'] == "||" && ['&', '&'] == "&&" && ['!', '='] == "!=";
  }

  lemma Spaced(op: string)
    requires op == "||" || op == "&&"
    ensures Operators(" " + op + " ") == " " + Operators(op) + " "
  {
    OperatorsNone(" ");
    assert op + " " != "";
    OperatorWords();
    OperatorsJoin(" ", op + " ");
    BeforeSpace(op);
    assert " " + op + " " == " " + (op + " ");
    assert " " + Operators(op) + " " == " " + (Operators(op) + " ");
  }

  /** An operator and the space after it. */
  lemma BeforeSpace(op: string)
    requires op == "||" || op == "&&"
    ensures Operators(op + " ") == Operators(op) + " "
  {
    if op == "||" {
      OrSpace();
      assert "||" + " " == "|| " && "or" + " " == "or ";
    } else {
      AndSpace();
      assert "&&" + " " == "&& " && "and" + " " == "and ";
    }
    OperatorWords();
    hide Operators;
  }

  lemma OrSpace()
    ensures Operators("|| ") == "or "
  {
    assert "|| "[2..] == " " && " "[1..] == "";
    assert ReplacePair(" ", '|', '|', "or") == " ";
    assert ReplacePair("|| ", '|', '|', "or") == "or" + " ";
    assert "or" + " " == "or ";
    ReplaceNone("or ", '&', '&', "and");
    ReplaceNone("or ", '!', '=', "~=");
    hide ReplacePair;
  }

  lemma AndSpace()
    ensures Operators("&& ") == "and "
  {
    assert "&& "[2..] == " " && " "[1..] == "";
    assert ReplacePair(" ", '&', '&', "and") == " ";
    assert ReplacePair("&& ", '&', '&', "and") == "and" + " ";
    assert "and" + " " == "and ";
    ReplaceNone("&& ", '|', '|', "or");
    ReplaceNone("and ", '!', '=', "~=");
    hide ReplacePair;
  }

  lemma BoundKept(b: Bound)
    ensures Operators(BoundText(b)) == BoundText(b) && Closed(BoundText(b))
  {
    BoundPlain(b);
    PlainLacks(BoundText(b), '|');
    PlainLacks(BoundText(b), '&');
    PlainLacks(BoundText(b), '!');
    hide BoundText;
    OperatorsNone(BoundText(b));
  }

  lemma RelationKept(r: Relation)
    ensures Operators(RelationText(r)) == LuaRelationText(r) && Closed(RelationText(r))
  {
    if r == NE {
      OperatorWords();
    } else {
      OperatorsNone(RelationText(r));
    }
  }

  lemma SpaceKept(x: string)
    requires Closed(x)
    ensures Operators(x + " ") == Operators(x) + " " && Closed(x + " ")
  {
    OperatorsNone(" ");
    OperatorsJoin(x, " ");
  }

  lemma CompareKept(x: string, r: string, y: string)
    requires Closed(x) && Closed(r) && Closed(y)
    ensures var s := x + " " + r + " " + y;
            Operators(s) == Operators(x) + " " + Operators(r) + " " + Operators(y) && Closed(s)
  {
    hide Operators;
    SpaceKept(x);
    OperatorsJoin(x + " ", r);
    SpaceKept(x + " " + r);
    OperatorsJoin(x + " " + r + " ", y);
  }

  lemma NestKept(a: string, op: string, b: string)
    requires Closed(a) && Closed(b) && (op == "||" || op == "&&")
    ensures var s := a + (" " + op + " ") + b;
            Operators(s) == Operators(a) + (" " + Operators(op) + " ") + Operators(b) && Closed(s)
  {
    hide Operators;
    OperatorsJoin(a, " " + op + " ");
    Spaced(op);
    OperatorsJoin(a + (" " + op + " "), b);
  }

  lemma AndKept(a: string, b: string)
    requires Closed(a) && Closed(b)
    ensures Operators(a + " && " + b) == Operators(a) + " and " + Operators(b) && Closed(a + " && " + b)
  {
    OperatorWords();
    NestKept(a, "&&", b);
    hide Operators, Closed;
    assert " " + "&&" + " " == " && " && " " + "and" + " " == " and ";
  }

  lemma OrKept(a: string, b: string)
    requires Closed(a) && Closed(b)
    ensures Operators(a + " || " + b) == Operators(a) + " or " + Operators(b) && Closed(a + " || " + b)
  {
    OperatorWords();
    NestKept(a, "||", b);
    hide Operators, Closed;
    assert " " + "||" + " " == " || " && " " + "or" + " " == " or ";
  }

  lemma FactorKept(a: string)
    requires Closed(a)
    ensures Operators("(" + a + ")") == "(" + Operators(a) + ")" && Closed("(" + a + ")")
  {
    OperatorsNone("(");
    OperatorsNone(")");
    hide Operators;
    OperatorsJoin("(", a);
    OperatorsJoin("(" + a, ")");
  }

  /** The replacements turn every condition of C into the same condition of Lua. */
  lemma {:induction false} CondTranslated(c: Cond)
    ensures Operators(CondText(c)) == LuaCondText(c) && Closed(CondText(c))
    ensures Operators(FactorText(c)) == LuaFactorText(c) && Closed(FactorText(c))
  {
    hide Operators, Closed, BoundText, RelationText, LuaRelationText;
    match c {
      case Compare(x, r, y) =>
        BoundKept(x);
        RelationKept(r);
        BoundKept(y);
        CompareKept(BoundText(x), RelationText(r), BoundText(y));
      case And(a, b) =>
        CondTranslated(a);
        CondTranslated(b);
        AndKept(FactorText(a), FactorText(b));
      case Or(a, b) =>
        CondTranslated(a);
        CondTranslated(b);
        OrKept(CondText(a), CondText(b));
        FactorKept(CondText(c));
    }
  }

  /** `parse_if` on the part of a line that its pattern finds. */
  lemma IfTranslated(c: Cond)
    ensures OcParser.If("if (" + (CondText(c) + ")")) == LuaIfText(c)
  {
    CondTranslated(c);
    hide CondText, LuaCondText, Closed;
    Parenthesised(CondText(c));
    assert OcParser.If("if (" + (CondText(c) + ")")) == Operators("if (" + (CondText(c) + ")")) + " then\n";
    hide Operators, OcParser.If;
  }

  lemma Parenthesised(x: string)
    requires Closed(x)
    ensures Operators("if (" + (x + ")")) == "if (" + Operators(x) + ")"
  {
    OperatorsNone("if (");
    OperatorsNone(")");
    assert Closed("if (");
    hide Operators;
    OperatorsJoin(x, ")");
    OperatorsJoin("if (", x + ")");
    assert "if (" + (Operators(x) + ")") == "if (" + Operators(x) + ")";
  }
}
